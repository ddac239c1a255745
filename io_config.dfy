/** The configuration defaults of the earlier pipeline draft
    (src/io/config.ts): a tree of paths under the user's home directory,
    deep-merged with the user's object so that the defaults win every
    conflict. */
module IoConfig {
  import opened Js
  import opened Strings
  import opened Paths
  import opened Ramda

  /** `process.env.HOME || '~'`; an unset `HOME` is passed as `""`, which
      falls back the same way. */
  function HomeOr(home: string): (h: string)
    ensures home != "" ==> h == home
    ensures home == "" ==> h == "~"
  {
    if home == "" then "~" else home
  }

  /** `root`: the site's own checkout. */
  function Root(home: string): string
  {
    Join3(HomeOr(home), "dev", "timmstelzer")
  }

  /** The default `source` object. */
  function DefaultSource(home: string): map<string, Value>
  {
    var root := Root(home);
    map[
      "posts" := Str(Join2(HomeOr(home), "posts")),
      "pages" := Str(Join3(root, "src", "pages")),
      "styles" := Str(Join3(root, "src", "styles")),
      "layouts" := Str(Join3(root, "src", "layouts"))]
  }

  /** `defaultConfig`. */
  function DefaultConfig(home: string): map<string, Value>
  {
    map[
      "source" := Obj(DefaultSource(home)),
      "destination" := Str(Join2(Root(home), "dist")),
      "exclude" := Arr([Str("node_modules")]),
      "include" := Arr([Str(".htaccess")])]
  }

  /** `toConfig(userConfig)`: `R.mergeDeepLeft(defaultConfig, userConfig)`. */
  function ToConfig(home: string, userConfig: map<string, Value>): (c: map<string, Value>)
    ensures c.Keys == DefaultConfig(home).Keys + userConfig.Keys
  {
    MergeDeepLeft(DefaultConfig(home), userConfig)
  }

  /** `toConfig()`: the argument defaults to `{}`, and the result is the
      defaults themselves. */
  lemma NoArgumentGivesDefaults(home: string)
    ensures ToConfig(home, map[]) == DefaultConfig(home)
  {
    MergeEmpty(DefaultConfig(home), true);
  }

  /** A key both objects hold, not an object on both sides, keeps the
      default: a user `destination`, `exclude` or `include` is ignored, and
      arrays are never merged element by element. */
  lemma DefaultWins(home: string, userConfig: map<string, Value>, k: string)
    requires k in DefaultConfig(home) && k in userConfig
    requires !(DefaultConfig(home)[k].Obj? && userConfig[k].Obj?)
    ensures ToConfig(home, userConfig)[k] == DefaultConfig(home)[k]
  {
    MergeDeepLeftAt(DefaultConfig(home), userConfig, k);
  }

  /** The three top-level keys that are not objects keep their defaults
      whatever the user sets. */
  lemma FixedTopLevel(home: string, userConfig: map<string, Value>)
    ensures var c := ToConfig(home, userConfig);
      && c["destination"] == Str(Join2(Root(home), "dist"))
      && c["exclude"] == Arr([Str("node_modules")])
      && c["include"] == Arr([Str(".htaccess")])
  {
    var d := DefaultConfig(home);
    MergeDeepLeftNonObject(d, userConfig, "destination");
    MergeDeepLeftNonObject(d, userConfig, "exclude");
    MergeDeepLeftNonObject(d, userConfig, "include");
  }

  /** A key only the user sets is kept as the user set it. */
  lemma UserOnlyKept(home: string, userConfig: map<string, Value>, k: string)
    requires k !in DefaultConfig(home) && k in userConfig
    ensures ToConfig(home, userConfig)[k] == userConfig[k]
  {
    MergeDeepLeftAt(DefaultConfig(home), userConfig, k);
  }

  /** Every default source path is a string. */
  lemma DefaultSourceFlat(home: string)
    ensures forall j | j in DefaultSource(home) :: DefaultSource(home)[j].Str?
  {
  }

  /** A user `source` object is merged key by key: the default paths stay,
      and source keys only the user names survive. */
  lemma SourceMerged(home: string, userConfig: map<string, Value>)
    requires "source" in userConfig && userConfig["source"].Obj?
    ensures var s := ToConfig(home, userConfig)["source"]; var u := userConfig["source"].fields;
      && s.Obj?
      && s.fields.Keys == DefaultSource(home).Keys + u.Keys
      && (forall k | k in DefaultSource(home) :: s.fields[k] == DefaultSource(home)[k])
      && (forall k | k in u && k !in DefaultSource(home) :: s.fields[k] == u[k])
  {
    var d := DefaultConfig(home);
    assert d["source"] == Obj(DefaultSource(home));
    DefaultSourceFlat(home);
    MergeDeepLeftNested(d, userConfig, "source");
  }

  /** Under a home directory spelled `/h1/.../hn`, the site lives in
      `dev/timmstelzer`. */
  lemma RootUnderHome(h: seq<string>)
    requires |h| >= 1 && forall i | 0 <= i < |h| :: Plain(h[i])
    ensures Root(Spell(true, h)) == Spell(true, h + ["dev", "timmstelzer"])
  {
    var home := Spell(true, h);
    var site := ["dev", "timmstelzer"];
    assert Spell(false, site) == "dev" + "/" + "timmstelzer" by {
      assert site[1..] == ["timmstelzer"];
    }
    Join3AsJoin2(home, "dev", "timmstelzer");
    JoinSpelled(h, site);
  }

  /** Posts live in `posts` directly under the home directory. */
  lemma PostsUnderHome(h: seq<string>)
    requires |h| >= 1 && forall i | 0 <= i < |h| :: Plain(h[i])
    ensures DefaultSource(Spell(true, h))["posts"] == Str(Spell(true, h + ["posts"]))
  {
    assert Spell(false, ["posts"]) == "posts";
    JoinSpelled(h, ["posts"]);
  }

  /** The output goes to `dev/timmstelzer/dist` under the home directory. */
  lemma DestinationUnderHome(h: seq<string>)
    requires |h| >= 1 && forall i | 0 <= i < |h| :: Plain(h[i])
    ensures DefaultConfig(Spell(true, h))["destination"] == Str(Spell(true, h + ["dev", "timmstelzer", "dist"]))
  {
    var site := h + ["dev", "timmstelzer"];
    RootUnderHome(h);
    assert Spell(false, ["dist"]) == "dist";
    JoinSpelled(site, ["dist"]);
    assert site + ["dist"] == h + ["dev", "timmstelzer", "dist"];
  }

  /** Without `HOME`, the site root is the relative path
      `~/dev/timmstelzer`: `path.join` does not expand `~`. */
  lemma RootWithoutHome()
    ensures Root("") == Spell(false, ["~", "dev", "timmstelzer"])
    ensures !IsAbsolute(Root(""))
  {
    RelativeJoin3("~", "dev", "timmstelzer");
  }

  /** `path.join` of three plain names spells the relative path they make. */
  lemma RelativeJoin3(x: string, y: string, z: string)
    requires Plain(x) && Plain(y) && Plain(z)
    ensures Join3(x, y, z) == Spell(false, [x, y, z])
  {
    Join3AsJoin2(x, y, z);
    var yz := y + "/" + z;
    var names := [x, y, z];
    assert [x, yz][1..] == [yz];
    assert NonEmpty([yz]) == [yz];
    assert NonEmpty([x, yz]) == [x, yz];
    assert names[1..] == [y, z] && [y, z][1..] == [z];
    assert Join([y, z], '/') == yz;
    assert Join(names, '/') == x + "/" + yz;
    assert Join([x, yz], '/') == x + "/" + yz;
    assert Spell(false, names) == Join(names, '/');
    assert Join2(x, yz) == PosixNormalize(Join([x, yz], '/'));
    NormalizeSpelled(false, names);
  }
}
