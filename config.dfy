/** Loading the site configuration (src/core/config.ts): the keys are checked
    (all missing keys reported together, then their types), the paths are
    resolved against the configuration file, the resolved paths are checked
    against the file system, and the two optional keys get their defaults. */
module Config {
  import opened Js
  import opened Validation
  import opened Paths
  import Ramda

  /** The parsed configuration file: a JSON object. Reading and parsing the
      file happens before this model starts. */
  type UserConfig = map<string, Value>

  const Posts: string := "posts"
  const Pages: string := "pages"
  const Styles: string := "styles"
  const Destination: string := "destination"
  const Layouts: string := "layouts"
  const StyleIndex: string := "styleIndex"
  const LayoutPath: string := "layoutPath"

  /** The keys that must be present, in the order their checks run. */
  const Required: seq<string> := [Posts, Pages, Styles, Destination, Layouts]

  /** The keys that may be left out. */
  const Optional: seq<string> := [StyleIndex, LayoutPath]

  /** The line every configuration message starts with. */
  const Context: string := "While parsing and generating the configuration:\n"

  // ---------------------------------------------------------------------------
  // Failure messages.
  // ---------------------------------------------------------------------------

  function RequiredMessage(k: string): string
  {
    Context + "The property \"<%s" + k + "%>\" is required in configuration."
  }

  /** Names the key and what `typeof` says of its value. */
  function StringMessage(k: string, a: UserConfig): string
  {
    Context + "The property \"<%s" + k + "%>\" must be a string, but was " + TypeOf(Get(a, k)) + "."
  }

  /** Quotes the value as a template literal prints it, then the key. */
  function DirectoryMessage(k: string, a: UserConfig): string
  {
    Context + "The path at \"<%s" + ToStr(Get(a, k)) + "%>, from property \"<%s" + k
      + "%>\" must point to a directory, but none was found."
  }

  function FileMessage(k: string, a: UserConfig): string
  {
    Context + "The path at \"<%s" + ToStr(Get(a, k)) + "%>, from property \"<%s" + k
      + "%>\" must point to a file, but none was found."
  }

  /** Two keys never share a "required" message. */
  lemma RequiredMessageInjective(k1: string, k2: string)
    requires RequiredMessage(k1) == RequiredMessage(k2)
    ensures k1 == k2
  {
    var prefix := Context + "The property \"<%s";
    var m := RequiredMessage(k1);
    assert m == prefix + k1 + "%>\" is required in configuration.";
    assert RequiredMessage(k2) == prefix + k2 + "%>\" is required in configuration.";
    assert m[|prefix|..|prefix| + |k1|] == k1;
    assert m[|prefix|..|prefix| + |k2|] == k2;
  }

  // ---------------------------------------------------------------------------
  // Validators.
  // ---------------------------------------------------------------------------

  /** One validator per key, in key order. */
  function Checks(ks: seq<string>, check: string -> Validator<UserConfig>): (vs: seq<Validator<UserConfig>>)
    ensures |vs| == |ks|
    ensures forall i | 0 <= i < |ks| :: vs[i] == check(ks[i])
  {
    seq(|ks|, i requires 0 <= i < |ks| => check(ks[i]))
  }

  /** `propIsRequired`: the key is an own property. */
  function PropIsRequired(k: string): Validator<UserConfig>
  {
    Validate(a => k in a, a => RequiredMessage(k))
  }

  /** `propIsString`: `R.type` of the value is `String`. */
  function PropIsString(k: string): Validator<UserConfig>
  {
    Validate(a => RType(Get(a, k)) == "String", a => StringMessage(k, a))
  }

  /** What `optionalPropIsString` accepts: a falsy value or a string. */
  predicate OptionalString(v: Value)
  {
    Falsy(v) || RType(v) == "String"
  }

  function OptionalPropIsString(k: string): Validator<UserConfig>
  {
    Validate(a => OptionalString(Get(a, k)), a => StringMessage(k, a))
  }

  /** The stages of `validateConfigKeys`: first every key's presence, then
      every key's type. */
  function KeyStages(): seq<Validator<UserConfig>>
  {
    [ a => ValidateAll(Checks(Required, PropIsRequired), a),
      a => ValidateAll(TypeChecks(), a) ]
  }

  /** The type checks of the second stage, required keys first. */
  function TypeChecks(): seq<Validator<UserConfig>>
  {
    Checks(Required, PropIsString) + Checks(Optional, OptionalPropIsString)
  }

  /** `validateConfigKeys`. */
  function ValidateConfigKeys(a: UserConfig): Validation<UserConfig>
  {
    ValidateSequence(KeyStages(), a)
  }

  /** `isDirectory(a[k] || '')`: a falsy value is looked up as the empty
      path; a value that is not a string is not a path that exists. */
  predicate DirectoryAt(env: Env, v: Value)
  {
    var p := if Falsy(v) then Str("") else v;
    p.Str? && IsDirectory(env, p.s)
  }

  /** `!a[k] || isFile(a[k] || '')`, where `isFile` is `existsSync`. */
  predicate FileAt(env: Env, v: Value)
  {
    Falsy(v) || (v.Str? && env.pathExists(v.s))
  }

  function PropIsDirectory(env: Env, k: string): Validator<UserConfig>
  {
    Validate(a => DirectoryAt(env, Get(a, k)), a => DirectoryMessage(k, a))
  }

  function OptionalPropIsFile(env: Env, k: string): Validator<UserConfig>
  {
    Validate(a => FileAt(env, Get(a, k)), a => FileMessage(k, a))
  }

  function ValueChecks(env: Env): seq<Validator<UserConfig>>
  {
    Checks(Required, k => PropIsDirectory(env, k)) + Checks(Optional, k => OptionalPropIsFile(env, k))
  }

  /** `validateConfigValues`: every path check runs and all failures are
      collected. */
  function ValidateConfigValues(env: Env, a: UserConfig): (r: Validation<UserConfig>)
    ensures r.Success? ==> r.value == a
  {
    ValidateAll(ValueChecks(env), a)
  }

  // ---------------------------------------------------------------------------
  // What the validators accept.
  // ---------------------------------------------------------------------------

  predicate AllPresent(a: UserConfig)
  {
    forall i | 0 <= i < |Required| :: Required[i] in a
  }

  /** What passes `validateConfigKeys`: every required key holds a string, and
      each optional key is falsy or a string. */
  predicate KeysValid(a: UserConfig)
  {
    && (forall i | 0 <= i < |Required| :: Required[i] in a && a[Required[i]].Str?)
    && (forall i | 0 <= i < |Optional| :: OptionalString(Get(a, Optional[i])))
  }

  /** What passes `validateConfigValues`. */
  predicate ValuesValid(env: Env, a: UserConfig)
  {
    && (forall i | 0 <= i < |Required| :: DirectoryAt(env, Get(a, Required[i])))
    && (forall i | 0 <= i < |Optional| :: FileAt(env, Get(a, Optional[i])))
  }

  /** A key that holds a string. */
  predicate RequiredString(a: UserConfig, k: string)
  {
    k in a && a[k].Str?
  }

  /** What the `UserConfig` type promises, key by key: the configuration
      `resolveConfigPaths` can work on. */
  predicate Typed(c: UserConfig)
  {
    && RequiredString(c, Posts) && RequiredString(c, Pages) && RequiredString(c, Styles)
    && RequiredString(c, Destination) && RequiredString(c, Layouts)
    && OptionalString(Get(c, StyleIndex)) && OptionalString(Get(c, LayoutPath))
  }

  /** Valid keys are exactly the typed configurations. */
  lemma KeysValidTyped(c: UserConfig)
    ensures KeysValid(c) <==> Typed(c)
  {
    assert Required[0] == Posts && Required[1] == Pages && Required[2] == Styles;
    assert Required[3] == Destination && Required[4] == Layouts;
    assert Optional[0] == StyleIndex && Optional[1] == LayoutPath;
    if Typed(c) {
      forall i | 0 <= i < |Required| ensures Required[i] in c && c[Required[i]].Str? {
        if i == 0 {} else if i == 1 {} else if i == 2 {} else if i == 3 {} else {}
      }
      forall i | 0 <= i < |Optional| ensures OptionalString(Get(c, Optional[i])) {
        if i == 0 {} else {}
      }
    }
  }

  /** The "required" messages of the keys of `ks` missing from `a`, in order. */
  function MissingMessages(ks: seq<string>, a: UserConfig): seq<string>
  {
    if |ks| == 0 then []
    else (if ks[0] in a then [] else [RequiredMessage(ks[0])]) + MissingMessages(ks[1..], a)
  }

  /** A key's "required" message is reported exactly when the key is one of
      those checked and is missing. */
  lemma {:induction false} MissingMessagesExact(ks: seq<string>, a: UserConfig, k: string)
    ensures RequiredMessage(k) in MissingMessages(ks, a) <==> k in ks && k !in a
  {
    if |ks| > 0 {
      MissingMessagesExact(ks[1..], a, k);
      if RequiredMessage(k) == RequiredMessage(ks[0]) {
        RequiredMessageInjective(k, ks[0]);
      }
      assert k in ks <==> k == ks[0] || k in ks[1..];
    }
  }

  /** The presence checks fail with exactly the missing keys' messages. */
  lemma {:induction false} PresenceMessages(ks: seq<string>, a: UserConfig)
    ensures FailedMessages(Checks(ks, PropIsRequired), a) == MissingMessages(ks, a)
  {
    if |ks| > 0 {
      var vs := Checks(ks, PropIsRequired);
      assert vs[1..] == Checks(ks[1..], PropIsRequired);
      PresenceMessages(ks[1..], a);
    }
  }


  /** When a required key is missing, the key stage fails with one "required"
      message per missing key, in key order, and no type check runs. */
  lemma MissingKeysReported(a: UserConfig)
    requires !AllPresent(a)
    ensures ValidateConfigKeys(a) == Failure(MissingMessages(Required, a))
    ensures forall k :: RequiredMessage(k) in ValidateConfigKeys(a).error <==> k in Required && k !in a
  {
    var i :| 0 <= i < |Required| && Required[i] !in a;
    assert Checks(Required, PropIsRequired)[i](a).Failure?;
    PresenceMessages(Required, a);
    forall k ensures RequiredMessage(k) in ValidateConfigKeys(a).error <==> k in Required && k !in a {
      MissingMessagesExact(Required, a, k);
    }
  }

  /** With every required key present, the key stage is the type stage. */
  lemma TypeStageDecides(a: UserConfig)
    requires AllPresent(a)
    ensures ValidateConfigKeys(a) == ValidateAll(TypeChecks(), a)
  {
    var presence := Checks(Required, PropIsRequired);
    assert forall i | 0 <= i < |presence| :: presence[i](a).Success?;
    var stages := KeyStages();
    assert stages[1..] == [stages[1]];
  }

  /** One validator per key passes exactly when each key's check passes. */
  lemma ChecksPass(ks: seq<string>, check: string -> Validator<UserConfig>, a: UserConfig)
    ensures ValidateAll(Checks(ks, check), a).Success? <==> forall i | 0 <= i < |ks| :: check(ks[i])(a).Success?
  {
  }

  /** The messages of one validator per key are the messages of the keys
      whose check fails, and only those. */
  lemma ChecksMessages(ks: seq<string>, check: string -> Validator<UserConfig>, a: UserConfig)
    ensures forall i | 0 <= i < |ks| && check(ks[i])(a).Failure? ::
      forall m | m in check(ks[i])(a).error :: m in FailedMessages(Checks(ks, check), a)
    ensures forall m | m in FailedMessages(Checks(ks, check), a) ::
      exists i | 0 <= i < |ks| :: check(ks[i])(a).Failure? && m in check(ks[i])(a).error
  {
    var vs := Checks(ks, check);
    forall i | 0 <= i < |ks| && check(ks[i])(a).Failure?
      ensures forall m | m in check(ks[i])(a).error :: m in FailedMessages(vs, a)
    {
      FailedMessagesInclude(vs, a, i);
    }
    forall m | m in FailedMessages(vs, a)
      ensures exists i | 0 <= i < |ks| :: check(ks[i])(a).Failure? && m in check(ks[i])(a).error
    {
      FailedMessagesFrom(vs, a, m);
    }
  }

  /** `validateConfigKeys` passes exactly the configurations whose keys are
      valid, and passes them unchanged. */
  lemma KeysValidIff(a: UserConfig)
    ensures ValidateConfigKeys(a).Success? <==> KeysValid(a)
    ensures ValidateConfigKeys(a).Success? ==> ValidateConfigKeys(a).value == a
  {
    if AllPresent(a) {
      var r1 := Checks(Required, PropIsString);
      var r2 := Checks(Optional, OptionalPropIsString);
      TypeStageDecides(a);
      assert TypeChecks() == r1 + r2;
      ValidateAllAppend(r1, r2, a);
      ChecksPass(Required, PropIsString, a);
      ChecksPass(Optional, OptionalPropIsString, a);
    } else {
      MissingKeysReported(a);
    }
  }

  /** `validateConfigValues` passes exactly the configurations whose paths are
      valid, and passes them unchanged. */
  lemma ValuesValidIff(env: Env, a: UserConfig)
    ensures ValidateConfigValues(env, a).Success? <==> ValuesValid(env, a)
    ensures ValidateConfigValues(env, a).Success? ==> ValidateConfigValues(env, a).value == a
  {
    ValidateAllAppend(Checks(Required, k => PropIsDirectory(env, k)), Checks(Optional, k => OptionalPropIsFile(env, k)), a);
    ChecksPass(Required, k => PropIsDirectory(env, k), a);
    ChecksPass(Optional, k => OptionalPropIsFile(env, k), a);
  }

  /** A failure of `validateConfigValues` names every failing key: first the
      required directories, then the optional files. */
  lemma ValuesFailureNamesEach(env: Env, a: UserConfig)
    requires ValidateConfigValues(env, a).Failure?
    ensures forall i | 0 <= i < |Required| && !DirectoryAt(env, Get(a, Required[i])) ::
      DirectoryMessage(Required[i], a) in ValidateConfigValues(env, a).error
    ensures forall i | 0 <= i < |Optional| && !FileAt(env, Get(a, Optional[i])) ::
      FileMessage(Optional[i], a) in ValidateConfigValues(env, a).error
  {
    var dirs := k => PropIsDirectory(env, k);
    var files := k => OptionalPropIsFile(env, k);
    FailedMessagesAppend(Checks(Required, dirs), Checks(Optional, files), a);
    ChecksMessages(Required, dirs, a);
    ChecksMessages(Optional, files, a);
  }

  /** Every message of a failure of `validateConfigValues` names a key whose
      check fails. */
  lemma ValuesFailureOnlyFailing(env: Env, a: UserConfig, m: string)
    requires ValidateConfigValues(env, a).Failure? && m in ValidateConfigValues(env, a).error
    ensures || (exists i | 0 <= i < |Required| :: !DirectoryAt(env, Get(a, Required[i])) && m == DirectoryMessage(Required[i], a))
            || (exists i | 0 <= i < |Optional| :: !FileAt(env, Get(a, Optional[i])) && m == FileMessage(Optional[i], a))
  {
    var dirs := k => PropIsDirectory(env, k);
    var files := k => OptionalPropIsFile(env, k);
    FailedMessagesAppend(Checks(Required, dirs), Checks(Optional, files), a);
    ChecksMessages(Required, dirs, a);
    ChecksMessages(Optional, files, a);
  }

  // ---------------------------------------------------------------------------
  // Resolution, defaults, pipeline.
  // ---------------------------------------------------------------------------

  /** A required key's path, resolved against the configuration file `s`;
      `path.join` and `path.normalize` never return the empty string. */
  function ResolveRequired(env: Env, s: string, c: UserConfig, k: string): (v: Value)
    requires RequiredString(c, k)
    ensures v.Str? && v.s != ""
  {
    var to := Parse(env, c[k].s);
    Str(Resolve(Parse(env, s), to))
  }

  /** An optional path: a falsy value stays as it is, a string is resolved
      against the resolved directory it belongs to. */
  function ResolveOptional(env: Env, base: string, v: Value): (r: Value)
    requires OptionalString(v)
    ensures Falsy(v) ==> r == v
    ensures !Falsy(v) ==> r.Str?
  {
    if Falsy(v) then v else Str(Resolve(Parse(env, base), Parse(env, v.s)))
  }

  /** The object literal `resolveConfigPaths` builds. */
  function ConfigOf(posts: Value, pages: Value, styles: Value, destination: Value, layouts: Value,
                    styleIndex: Value, layoutPath: Value): (r: UserConfig)
    ensures r.Keys == {Posts, Pages, Styles, Destination, Layouts, StyleIndex, LayoutPath}
    ensures r[Posts] == posts && r[Pages] == pages && r[Styles] == styles
    ensures r[Destination] == destination && r[Layouts] == layouts
    ensures r[StyleIndex] == styleIndex && r[LayoutPath] == layoutPath
  {
    map[
      Styles := styles,
      Pages := pages,
      Posts := posts,
      Destination := destination,
      Layouts := layouts,
      StyleIndex := styleIndex,
      LayoutPath := layoutPath]
  }

  /** `resolveConfigPaths(s)(c)`: a new object with all seven keys. Each
      required path is resolved against the configuration file `s`;
      `styleIndex` against the resolved `styles`, and `layoutPath` against the
      resolved `layouts`. */
  function ResolveConfigPaths(env: Env, s: string, c: UserConfig): (r: UserConfig)
    requires Typed(c)
    ensures r.Keys == {Posts, Pages, Styles, Destination, Layouts, StyleIndex, LayoutPath}
    ensures r[Posts] == ResolveRequired(env, s, c, Posts) && r[Pages] == ResolveRequired(env, s, c, Pages)
    ensures r[Styles] == ResolveRequired(env, s, c, Styles)
    ensures r[Destination] == ResolveRequired(env, s, c, Destination)
    ensures r[Layouts] == ResolveRequired(env, s, c, Layouts)
    ensures r[StyleIndex] == ResolveOptional(env, r[Styles].s, Get(c, StyleIndex))
    ensures r[LayoutPath] == ResolveOptional(env, r[Layouts].s, Get(c, LayoutPath))
  {
    var styles := ResolveRequired(env, s, c, Styles);
    var layouts := ResolveRequired(env, s, c, Layouts);
    ConfigOf(
      ResolveRequired(env, s, c, Posts),
      ResolveRequired(env, s, c, Pages),
      styles,
      ResolveRequired(env, s, c, Destination),
      layouts,
      ResolveOptional(env, styles.s, Get(c, StyleIndex)),
      ResolveOptional(env, layouts.s, Get(c, LayoutPath)))
  }

  /** With the configuration file at an absolute path, every resolved path is
      absolute. */
  lemma ResolvedAbsolute(env: Env, s: string, c: UserConfig)
    requires Typed(c)
    requires IsAbsolute(Normalize(env, s))
    ensures var r := ResolveConfigPaths(env, s, c);
      && IsAbsolute(r[Posts].s) && IsAbsolute(r[Pages].s) && IsAbsolute(r[Styles].s)
      && IsAbsolute(r[Destination].s) && IsAbsolute(r[Layouts].s)
      && (!Falsy(r[StyleIndex]) ==> r[StyleIndex].Str? && IsAbsolute(r[StyleIndex].s))
      && (!Falsy(r[LayoutPath]) ==> r[LayoutPath].Str? && IsAbsolute(r[LayoutPath].s))
  {
    var r := ResolveConfigPaths(env, s, c);
    ResolveFromAbsolute(env, s, Parse(env, c[Posts].s));
    ResolveFromAbsolute(env, s, Parse(env, c[Pages].s));
    ResolveFromAbsolute(env, s, Parse(env, c[Styles].s));
    ResolveFromAbsolute(env, s, Parse(env, c[Destination].s));
    ResolveFromAbsolute(env, s, Parse(env, c[Layouts].s));
    var si := Get(c, StyleIndex);
    if !Falsy(si) {
      NormalizeKeepsAbsolute(env, r[Styles].s);
      ResolveFromAbsolute(env, r[Styles].s, Parse(env, si.s));
    }
    var lp := Get(c, LayoutPath);
    if !Falsy(lp) {
      NormalizeKeepsAbsolute(env, r[Layouts].s);
      ResolveFromAbsolute(env, r[Layouts].s, Parse(env, lp.s));
    }
  }

  /** The two hops: with the configuration file `/dir/file` (not a directory),
      `styles` the relative `st` and `/dir/st` a directory, the relative
      `styleIndex` `idx` lands in `/dir/st/idx`. */
  lemma StyleIndexTwoHops(env: Env, dir: seq<string>, file: string, st: seq<string>, idx: seq<string>, c: UserConfig)
    requires |dir| >= 1 && |st| >= 1 && |idx| >= 1
    requires forall i | 0 <= i < |dir| :: Plain(dir[i]) && '~' !in dir[i]
    requires forall i | 0 <= i < |st| :: Plain(st[i]) && '~' !in st[i]
    requires forall i | 0 <= i < |idx| :: Plain(idx[i]) && '~' !in idx[i]
    requires Plain(file) && '~' !in file
    requires !IsDirectory(env, Spell(true, dir + [file]))
    requires IsDirectory(env, Spell(true, dir + st))
    requires Typed(c)
    requires c[Styles] == Str(Spell(false, st)) && Get(c, StyleIndex) == Str(Spell(false, idx))
    ensures ResolveConfigPaths(env, Spell(true, dir + [file]), c)[Styles] == Str(Spell(true, dir + st))
    ensures ResolveConfigPaths(env, Spell(true, dir + [file]), c)[StyleIndex] == Str(Spell(true, dir + st + idx))
  {
    SpelledEnd(idx);
    ResolveBesideFile(env, dir, file, st);
    var stNames := dir + st;
    forall i | 0 <= i < |stNames| ensures Plain(stNames[i]) && '~' !in stNames[i] {
      if i >= |dir| { assert stNames[i] == st[i - |dir|]; }
    }
    ResolveIntoDirectory(env, stNames, idx);
  }

  /** The defaults `mergeWithDefaults` puts under the configuration. */
  const Defaults: UserConfig := map[StyleIndex := Str(""), LayoutPath := Str("")]

  /** `mergeWithDefaults`: every key of `c` keeps its value, and `''` fills a
      `styleIndex` or `layoutPath` key that `c` does not have. */
  function MergeWithDefaults(c: UserConfig): (r: UserConfig)
    ensures r.Keys == c.Keys + {StyleIndex, LayoutPath}
    ensures forall k | k in c :: r[k] == c[k]
    ensures StyleIndex !in c ==> r[StyleIndex] == Str("")
    ensures LayoutPath !in c ==> r[LayoutPath] == Str("")
  {
    Ramda.MergeDeepRight(Defaults, c)
  }

  /** The exported pipeline: validate the keys, resolve the paths (`map`),
      validate the resolved paths (`flatMap`), merge the defaults (`map`). A
      failure at any stage is the result. */
  function LoadConfig(env: Env, s: string, user: UserConfig): (r: Validation<UserConfig>)
    ensures r.Success? ==> ValidateConfigKeys(user).Success?
  {
    match ValidateConfigKeys(user)
    case Failure(e) => Failure(e)
    case Success(c) =>
      KeysValidIff(user);
      KeysValidTyped(user);
      Map(MergeWithDefaults, ValidateConfigValues(env, ResolveConfigPaths(env, s, c)))
  }

  /** A key failure is the pipeline's result: nothing is resolved or looked
      up on disk. */
  lemma LoadStopsAtKeys(env: Env, s: string, user: UserConfig)
    requires ValidateConfigKeys(user).Failure?
    ensures LoadConfig(env, s, user) == ValidateConfigKeys(user)
  {
  }

  /** Once the keys are valid, a failure of the pipeline is exactly the
      failure of the path checks on the resolved configuration. */
  lemma LoadFailsAtValues(env: Env, s: string, user: UserConfig)
    requires KeysValid(user)
    ensures Typed(user)
    ensures LoadConfig(env, s, user).Failure? <==> !ValuesValid(env, ResolveConfigPaths(env, s, user))
    ensures LoadConfig(env, s, user).Failure? ==>
      LoadConfig(env, s, user) == ValidateConfigValues(env, ResolveConfigPaths(env, s, user))
  {
    KeysValidIff(user);
    KeysValidTyped(user);
    ValuesValidIff(env, ResolveConfigPaths(env, s, user));
  }

  /** A required path of a loaded configuration: resolved against the
      configuration file `s`, and an existing directory. */
  predicate LoadedDirectory(env: Env, s: string, user: UserConfig, r: UserConfig, k: string)
    requires RequiredString(user, k)
  {
    k in r && r[k] == ResolveRequired(env, s, user, k) && IsDirectory(env, r[k].s)
  }

  /** A configuration that loads had valid keys, and every required path of
      the result is an existing directory, resolved against `s`. */
  lemma LoadSuccess(env: Env, s: string, user: UserConfig)
    requires LoadConfig(env, s, user).Success?
    ensures KeysValid(user) && Typed(user)
    ensures LoadConfig(env, s, user).value == MergeWithDefaults(ResolveConfigPaths(env, s, user))
    ensures var r := LoadConfig(env, s, user).value;
      && LoadedDirectory(env, s, user, r, Posts) && LoadedDirectory(env, s, user, r, Pages)
      && LoadedDirectory(env, s, user, r, Styles) && LoadedDirectory(env, s, user, r, Destination)
      && LoadedDirectory(env, s, user, r, Layouts)
  {
    KeysValidIff(user);
    KeysValidTyped(user);
    var resolved := ResolveConfigPaths(env, s, user);
    ValuesValidIff(env, resolved);
    RequiredDirectories(env, resolved);
  }

  /** Valid values put an existing directory under every required key. */
  lemma RequiredDirectories(env: Env, r: UserConfig)
    requires ValuesValid(env, r)
    requires RequiredString(r, Posts) && RequiredString(r, Pages) && RequiredString(r, Styles)
    requires RequiredString(r, Destination) && RequiredString(r, Layouts)
    ensures IsDirectory(env, r[Posts].s) && IsDirectory(env, r[Pages].s) && IsDirectory(env, r[Styles].s)
    ensures IsDirectory(env, r[Destination].s) && IsDirectory(env, r[Layouts].s)
  {
    assert Required[0] == Posts && Required[1] == Pages && Required[2] == Styles;
    assert Required[3] == Destination && Required[4] == Layouts;
    assert DirectoryAt(env, Get(r, Required[0]));
    assert DirectoryAt(env, Get(r, Required[1]));
    assert DirectoryAt(env, Get(r, Required[2]));
    assert DirectoryAt(env, Get(r, Required[3]));
    assert DirectoryAt(env, Get(r, Required[4]));
  }

  /** As written, a configuration without `styleIndex` loads with that key
      holding `undefined`: the resolver writes the key with the falsy value,
      so the `''` default never applies. */
  lemma StyleIndexLeftUndefined(env: Env, s: string, user: UserConfig)
    requires StyleIndex !in user
    requires LoadConfig(env, s, user).Success?
    ensures LoadConfig(env, s, user).value[StyleIndex] == Undefined
  {
    KeysValidIff(user);
    KeysValidTyped(user);
    var resolved := ResolveConfigPaths(env, s, user);
    ValuesValidIff(env, resolved);
  }

  /** The optional keys differ from each other and from every required key. */
  lemma OptionalKeysDistinct()
    ensures StyleIndex != LayoutPath
    ensures forall i | 0 <= i < |Required| :: Required[i] != StyleIndex && Required[i] != LayoutPath
    ensures Posts !in Optional && Pages !in Optional && Styles !in Optional
    ensures Destination !in Optional && Layouts !in Optional
  {
    assert StyleIndex[0] != LayoutPath[0];
    assert forall i | 0 <= i < |Required| :: |Required[i]| != 10;
  }

  /** The resolved object without the optional keys the user left falsy. */
  function DropFalsyOptional(c: UserConfig, full: UserConfig): (r: UserConfig)
    requires Posts in full && Pages in full && Styles in full && Destination in full && Layouts in full
    ensures forall k | k in r :: k in full && r[k] == full[k]
    ensures StyleIndex in r <==> StyleIndex in full && !Falsy(Get(c, StyleIndex))
    ensures LayoutPath in r <==> LayoutPath in full && !Falsy(Get(c, LayoutPath))
    ensures Posts in r && Pages in r && Styles in r && Destination in r && Layouts in r
  {
    OptionalKeysDistinct();
    var dropped := (if Falsy(Get(c, StyleIndex)) then {StyleIndex} else {})
                 + (if Falsy(Get(c, LayoutPath)) then {LayoutPath} else {});
    full - dropped
  }

  /** The resolver as evidently intended: a falsy optional key is left out, so
      that the default can fill it. */
  function ResolveConfigPathsCorrected(env: Env, s: string, c: UserConfig): (r: UserConfig)
    requires Typed(c)
  {
    DropFalsyOptional(c, ResolveConfigPaths(env, s, c))
  }

  /** The pipeline with the corrected resolver. */
  function LoadConfigCorrected(env: Env, s: string, user: UserConfig): Validation<UserConfig>
  {
    match ValidateConfigKeys(user)
    case Failure(e) => Failure(e)
    case Success(c) =>
      KeysValidIff(user);
      KeysValidTyped(user);
      Map(MergeWithDefaults, ValidateConfigValues(env, ResolveConfigPathsCorrected(env, s, c)))
  }

  /** Every key of the `Config` type holds a string. */
  predicate AllStrings(r: UserConfig)
  {
    && RequiredString(r, Posts) && RequiredString(r, Pages) && RequiredString(r, Styles)
    && RequiredString(r, Destination) && RequiredString(r, Layouts)
    && RequiredString(r, StyleIndex) && RequiredString(r, LayoutPath)
  }

  /** With the corrected resolver, a loaded configuration has all seven keys
      and each holds a string, as the `Config` type promises; an optional key
      the user left out holds `''`. */
  lemma LoadCorrectedAllStrings(env: Env, s: string, user: UserConfig)
    requires LoadConfigCorrected(env, s, user).Success?
    ensures AllStrings(LoadConfigCorrected(env, s, user).value)
    ensures StyleIndex !in user ==> LoadConfigCorrected(env, s, user).value[StyleIndex] == Str("")
    ensures LayoutPath !in user ==> LoadConfigCorrected(env, s, user).value[LayoutPath] == Str("")
  {
    KeysValidIff(user);
    KeysValidTyped(user);
    var resolved := ResolveConfigPathsCorrected(env, s, user);
    ValuesValidIff(env, resolved);
  }
}
