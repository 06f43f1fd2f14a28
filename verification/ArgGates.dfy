/** The startup gates over the three environment values that carry fclones arguments, and the command
    lines built from values that passed them. */
module ArgGates {
  import opened Args
  import opened Search
  import opened Text

  /** Lower-casing of one rune. Only its behaviour on ASCII is fixed, so the results hold for every
      Unicode case table. */
  type LowerCase = f: char -> char | (forall c :: c < 128 as char ==> f(c) == AsciiLower(c)) witness AsciiLower

  function AsciiLower(c: char): char {
    if 'A' <= c <= 'Z' then (c as int + 32) as char else c
  }

  lemma {:induction false} AlphabetLowered(lower: LowerCase, i: nat)
    requires i < 26
    ensures lower("ABCDEFGHIJKLMNOPQRSTUVWXYZ"[i]) == "abcdefghijklmnopqrstuvwxyz"[i]
    ensures lower("abcdefghijklmnopqrstuvwxyz"[i]) == "abcdefghijklmnopqrstuvwxyz"[i]
  {
  }

  /** FCLONES_ARGS, FCLONES_ACTION_ARGS and FCLONES_SCAN_PATHS. */
  datatype Env = FclonesArgs | FclonesActionArgs | FclonesScanPaths

  datatype Values = Values(args: string, actionArgs: string, scanPaths: string) {
    function Of(env: Env): string {
      match env
      case FclonesArgs => args
      case FclonesActionArgs => actionArgs
      case FclonesScanPaths => scanPaths
    }
  }

  const DANGEROUS_FLAGS: seq<string> := ["--transform", "--in-place", "--no-copy"]
  const WRAPPER_OWNED_FLAGS: seq<string> := ["--format", "--cache"]

  datatype GateError =
    | Syntax(env: Env, cause: ParseError)
    | Dangerous(env: Env, flag: string)
    | WrapperOwned(arg: string)
    | Positional(env: Env, arg: string)

  datatype Gate = Pass | Reject(error: GateError)

  // ----- the three checks on one token list -----

  /** The lower-cased token is the flag, alone or with an attached "=value". */
  predicate Spells(lower: LowerCase, arg: string, flag: string) {
    var l := MapRunes(lower, arg);
    l == flag || HasPrefix(l, flag + "=")
  }

  predicate IsDangerous(lower: LowerCase, arg: string) {
    exists k :: 0 <= k < |DANGEROUS_FLAGS| && Spells(lower, arg, DANGEROUS_FLAGS[k])
  }

  /** A spelling of the short report-format flag, with or without an attached value. */
  predicate IsShortFormat(lower: LowerCase, arg: string) {
    HasPrefix(MapRunes(lower, arg), "-f") && !HasPrefix(MapRunes(lower, arg), "--")
  }

  predicate IsOwned(lower: LowerCase, arg: string) {
    IsShortFormat(lower, arg)
    || exists k :: 0 <= k < |WRAPPER_OWNED_FLAGS| && Spells(lower, arg, WRAPPER_OWNED_FLAGS[k])
  }

  predicate IsFlag(arg: string) {
    HasPrefix(arg, "-") && arg != "--"
  }

  /** A token that fclones cannot take for an option: the separator "--", or one without a leading "-". */
  predicate IsBare(arg: string) {
    arg == "--" || arg == "" || arg[0] != '-'
  }

  /** No bare token comes first or directly behind another. */
  predicate BareApart(args: seq<string>) {
    forall i :: 0 <= i < |args| && IsBare(args[i]) ==> i > 0 && !IsBare(args[i - 1])
  }

  /** A token in the position of a flag's value, or a flag itself. */
  predicate Placed(args: seq<string>, i: nat)
    requires i < |args|
  {
    IsFlag(args[i]) || (i > 0 && IsFlag(args[i - 1]))
  }

  // ----- the three shapes of an accepted value -----

  ghost predicate NoDangerous(lower: LowerCase, raw: string) {
    Parse(raw).Ok? ==> forall i :: 0 <= i < |Parse(raw).args| ==> !IsDangerous(lower, Parse(raw).args[i])
  }

  ghost predicate NoOwned(lower: LowerCase, raw: string) {
    Parse(raw).Ok? ==> forall i :: 0 <= i < |Parse(raw).args| ==> !IsOwned(lower, Parse(raw).args[i])
  }

  ghost predicate FlagsAndValues(raw: string) {
    Parse(raw).Ok? ==> forall i :: 0 <= i < |Parse(raw).args| ==> Placed(Parse(raw).args, i)
  }

  lemma {:induction false} FlagOrBare(arg: string)
    ensures IsFlag(arg) <==> !IsBare(arg)
  {
    assert HasPrefix(arg, "-") <==> arg != "" && arg[0] == '-';
  }

  /** What the placement check asks of a token list, told by the tokens' own texts. */
  lemma {:induction false} PlacedExactly(args: seq<string>)
    ensures (forall i :: 0 <= i < |args| ==> Placed(args, i)) <==> BareApart(args)
  {
    hide IsFlag, IsBare;
    forall i | 0 <= i < |args| ensures IsFlag(args[i]) <==> !IsBare(args[i]) {
      FlagOrBare(args[i]);
    }
    if BareApart(args) {
      forall i | 0 <= i < |args| ensures Placed(args, i) {
      }
    } else {
      var i :| 0 <= i < |args| && IsBare(args[i]) && !(i > 0 && !IsBare(args[i - 1]));
      assert !Placed(args, i);
    }
  }

  // ----- what a refusal names -----

  /** The flag is on the denylist and some token spells it. */
  ghost predicate NamesDangerous(lower: LowerCase, raw: string, flag: string) {
    && Parse(raw).Ok? && flag in DANGEROUS_FLAGS
    && exists i :: 0 <= i < |Parse(raw).args| && Spells(lower, Parse(raw).args[i], flag)
  }

  /** The token is the first that spells a wrapper-owned flag. */
  ghost predicate NamesFirstOwned(lower: LowerCase, raw: string, arg: string) {
    Parse(raw).Ok? && exists i :: 0 <= i < |Parse(raw).args| && Parse(raw).args[i] == arg && IsOwned(lower, arg)
                                  && forall j :: 0 <= j < i ==> !IsOwned(lower, Parse(raw).args[j])
  }

  /** The token is the first that is neither a flag nor in a flag's value position. */
  ghost predicate NamesFirstBare(raw: string, arg: string) {
    Parse(raw).Ok? && exists i :: 0 <= i < |Parse(raw).args| && Parse(raw).args[i] == arg && !Placed(Parse(raw).args, i)
                                  && forall j :: 0 <= j < i ==> Placed(Parse(raw).args, j)
  }

  // ----- the gates -----

  method RejectDangerousArgs(lower: LowerCase, raw: string, env: Env) returns (g: Gate)
    ensures g.Pass? <==> Parse(raw).Ok? && NoDangerous(lower, raw)
    ensures Parse(raw).Err? ==> g == Reject(Syntax(env, Parse(raw).error))
    ensures Parse(raw).Ok? && g.Reject? ==>
              g.error.Dangerous? && g.error.env == env && NamesDangerous(lower, raw, g.error.flag)
  {
    hide Parse, Spells;
    var parsed := ParseInput(raw);
    if parsed.Err? {
      return Reject(Syntax(env, parsed.error));
    }
    for i := 0 to |parsed.args|
      invariant forall j :: 0 <= j < i ==> !IsDangerous(lower, parsed.args[j])
    {
      for k := 0 to |DANGEROUS_FLAGS|
        invariant forall j :: 0 <= j < k ==> !Spells(lower, parsed.args[i], DANGEROUS_FLAGS[j])
      {
        if Spells(lower, parsed.args[i], DANGEROUS_FLAGS[k]) {
          assert IsDangerous(lower, parsed.args[i]);
          return Reject(Dangerous(env, DANGEROUS_FLAGS[k]));
        }
      }
    }
    return Pass;
  }

  /** Refuses the first token that spells a flag the wrapper sets itself. */
  method RejectWrapperOwnedArgs(lower: LowerCase, raw: string) returns (g: Gate)
    ensures g.Pass? <==> Parse(raw).Ok? && NoOwned(lower, raw)
    ensures Parse(raw).Err? ==> g == Reject(Syntax(FclonesArgs, Parse(raw).error))
    ensures Parse(raw).Ok? && g.Reject? ==> g.error.WrapperOwned? && NamesFirstOwned(lower, raw, g.error.arg)
  {
    hide Parse, Spells, IsShortFormat;
    var parsed := ParseInput(raw);
    if parsed.Err? {
      return Reject(Syntax(FclonesArgs, parsed.error));
    }
    for i := 0 to |parsed.args|
      invariant forall j :: 0 <= j < i ==> !IsOwned(lower, parsed.args[j])
    {
      var owned := IsShortFormat(lower, parsed.args[i]);
      for k := 0 to |WRAPPER_OWNED_FLAGS|
        invariant owned <==> IsShortFormat(lower, parsed.args[i])
                             || exists j :: 0 <= j < k && Spells(lower, parsed.args[i], WRAPPER_OWNED_FLAGS[j])
      {
        if Spells(lower, parsed.args[i], WRAPPER_OWNED_FLAGS[k]) {
          owned := true;
          break;
        }
      }
      assert owned == IsOwned(lower, parsed.args[i]);
      if owned {
        return Reject(WrapperOwned(parsed.args[i]));
      }
    }
    return Pass;
  }

  /** Refuses the first bare token that is not a flag's value. */
  method RejectPositionalArgs(raw: string, env: Env) returns (g: Gate)
    ensures g.Pass? <==> Parse(raw).Ok? && FlagsAndValues(raw)
    ensures g.Pass? <==> Parse(raw).Ok? && BareApart(Parse(raw).args)
    ensures Parse(raw).Err? ==> g == Reject(Syntax(env, Parse(raw).error))
    ensures Parse(raw).Ok? && g.Reject? ==>
              g.error.Positional? && IsBare(g.error.arg) && g.error.env == env && NamesFirstBare(raw, g.error.arg)
  {
    hide Parse, IsFlag, IsBare, BareApart;
    var parsed := ParseInput(raw);
    if parsed.Err? {
      return Reject(Syntax(env, parsed.error));
    }
    PlacedExactly(parsed.args);
    var prevIsFlag := false;
    for i := 0 to |parsed.args|
      invariant prevIsFlag <==> i > 0 && IsFlag(parsed.args[i - 1])
      invariant forall j :: 0 <= j < i ==> Placed(parsed.args, j)
    {
      var isFlag := IsFlag(parsed.args[i]);
      if !isFlag && !prevIsFlag {
        assert !Placed(parsed.args, i);
        FlagOrBare(parsed.args[i]);
        return Reject(Positional(env, parsed.args[i]));
      }
      prevIsFlag := isFlag;
    }
    return Pass;
  }

  // ----- the sequence of gates -----

  /** The configurations startup accepts. */
  ghost predicate Accepted(lower: LowerCase, unsafeAllowed: bool, v: Values) {
    && Parse(v.args).Ok? && Parse(v.actionArgs).Ok? && Parse(v.scanPaths).Ok?
    && (!unsafeAllowed ==> NoDangerous(lower, v.args) && NoDangerous(lower, v.actionArgs) && NoDangerous(lower, v.scanPaths))
    && NoOwned(lower, v.args)
    && FlagsAndValues(v.args) && FlagsAndValues(v.actionArgs)
  }

  /** The reason given for a refusal is true of the value it names. */
  ghost predicate Justified(lower: LowerCase, unsafeAllowed: bool, v: Values, e: GateError) {
    match e
    case Syntax(env, cause) => Parse(v.Of(env)) == Err(cause)
    case Dangerous(env, flag) => !unsafeAllowed && NamesDangerous(lower, v.Of(env), flag)
    case WrapperOwned(arg) => NamesFirstOwned(lower, v.args, arg)
    case Positional(env, arg) => env != FclonesScanPaths && NamesFirstBare(v.Of(env), arg)
  }

  /** Only the denylist is relaxed by ALLOW_UNSAFE_ARGS; syntax, ownership and placement hold in
      both modes. */
  method ValidateArgEnvs(lower: LowerCase, unsafeAllowed: bool, v: Values) returns (g: Gate)
    ensures g.Pass? <==> Accepted(lower, unsafeAllowed, v)
    ensures g.Reject? ==> Justified(lower, unsafeAllowed, v, g.error)
  {
    hide Parse, NoDangerous, NoOwned, FlagsAndValues, NamesDangerous, NamesFirstOwned, NamesFirstBare;
    var all := [FclonesArgs, FclonesActionArgs, FclonesScanPaths];
    for i := 0 to |all|
      invariant forall j :: 0 <= j < i ==> Parse(v.Of(all[j])).Ok? && (unsafeAllowed || NoDangerous(lower, v.Of(all[j])))
    {
      if unsafeAllowed {
        var parsed := ParseInput(v.Of(all[i]));
        if parsed.Err? {
          return Reject(Syntax(all[i], parsed.error));
        }
        continue;
      }
      g := RejectDangerousArgs(lower, v.Of(all[i]), all[i]);
      if g.Reject? {
        return;
      }
    }
    assert all[0] == FclonesArgs && all[1] == FclonesActionArgs && all[2] == FclonesScanPaths;
    g := RejectWrapperOwnedArgs(lower, v.args);
    if g.Reject? {
      return;
    }
    var flagsOnly := [FclonesArgs, FclonesActionArgs];
    for i := 0 to |flagsOnly|
      invariant forall j :: 0 <= j < i ==> FlagsAndValues(v.Of(flagsOnly[j]))
    {
      g := RejectPositionalArgs(v.Of(flagsOnly[i]), flagsOnly[i]);
      if g.Reject? {
        return;
      }
    }
    assert flagsOnly[0] == FclonesArgs && flagsOnly[1] == FclonesActionArgs;
    return Pass;
  }

  /** Startup accepts a configuration exactly when its three values are token lists of which none holds
      a denylisted flag (unless allowed), the extra arguments no owned flag, and neither those nor the
      action's a bare token first or behind another. */
  lemma {:induction false} AcceptedExactly(lower: LowerCase, unsafeAllowed: bool, v: Values,
                                           args: seq<string>, actionArgs: seq<string>, paths: seq<string>)
    requires Parse(v.args) == Ok(args) && Parse(v.actionArgs) == Ok(actionArgs) && Parse(v.scanPaths) == Ok(paths)
    ensures Accepted(lower, unsafeAllowed, v)
            <==> (forall t :: t in args + actionArgs + paths ==> unsafeAllowed || !IsDangerous(lower, t))
                 && (forall t :: t in args ==> !IsOwned(lower, t))
                 && BareApart(args) && BareApart(actionArgs)
  {
    hide Parse, IsDangerous, IsOwned, Placed, BareApart;
    PlacedExactly(args);
    PlacedExactly(actionArgs);
    assert forall t :: t in args + actionArgs + paths <==> t in args || t in actionArgs || t in paths;
  }

  /** Extra arguments that open with "--", behind which fclones reads scan paths alone, are never
      accepted; "-- /media" is such a value. */
  lemma {:induction false} SeparatorRefused(lower: LowerCase, unsafeAllowed: bool, v: Values)
    requires v.args == "-- /media" || (Parse(v.args).Ok? && ["--"] <= Parse(v.args).args)
    ensures !Accepted(lower, unsafeAllowed, v)
  {
    hide Parse;
    WordsSeparated("--", "/media");
    assert "--" + " " + "/media" == "-- /media";
    assert Parse(v.args).args[0] == "--";
    assert !Placed(Parse(v.args).args, 0);
  }

  // ----- letter case -----

  /** The text is the flag in any mixture of lower and upper case. */
  predicate AnyCase(text: string, low: string, up: string) {
    |text| == |low| == |up| && forall i :: 0 <= i < |text| ==> text[i] == low[i] || text[i] == up[i]
  }

  lemma {:induction false} CaseLowered(lower: LowerCase, text: string, rest: string, low: string, up: string)
    requires AnyCase(text, low, up)
    requires forall i :: 0 <= i < |low| ==> low[i] < 128 as char && up[i] < 128 as char
    requires forall i :: 0 <= i < |low| ==> AsciiLower(low[i]) == low[i] == AsciiLower(up[i])
    ensures MapRunes(lower, text + rest) == low + MapRunes(lower, rest)
  {
  }

  lemma {:induction false} AnyCaseSpells(lower: LowerCase, text: string, rest: string, low: string, up: string)
    requires AnyCase(text, low, up) && (rest == "" || rest[0] == '=')
    requires forall i :: 0 <= i < |low| ==> low[i] < 128 as char && up[i] < 128 as char
    requires forall i :: 0 <= i < |low| ==> AsciiLower(low[i]) == low[i] == AsciiLower(up[i])
    ensures Spells(lower, text + rest, low)
  {
    CaseLowered(lower, text, rest, low, up);
    var l := MapRunes(lower, rest);
    if rest == "" {
      assert low + l == low;
    } else {
      assert l == "=" + l[1..];
      assert low + l == (low + "=") + l[1..];
    }
  }

  /** The wrapper's flags are refused in every letter case, with or without an attached value. */
  lemma {:induction false} OwnedInAnyCase(lower: LowerCase, text: string, rest: string)
    ensures AnyCase(text, "--format", "--FORMAT") && (rest == "" || rest[0] == '=') ==> IsOwned(lower, text + rest)
    ensures AnyCase(text, "--cache", "--CACHE") && (rest == "" || rest[0] == '=') ==> IsOwned(lower, text + rest)
    ensures AnyCase(text, "-f", "-F") ==> IsOwned(lower, text + rest)
  {
    hide Spells, MapRunes;
    if rest == "" || rest[0] == '=' {
      if AnyCase(text, "--format", "--FORMAT") {
        AnyCaseSpells(lower, text, rest, "--format", "--FORMAT");
        assert WRAPPER_OWNED_FLAGS[0] == "--format";
      }
      if AnyCase(text, "--cache", "--CACHE") {
        AnyCaseSpells(lower, text, rest, "--cache", "--CACHE");
        assert WRAPPER_OWNED_FLAGS[1] == "--cache";
      }
    }
    if AnyCase(text, "-f", "-F") {
      CaseLowered(lower, text, rest, "-f", "-F");
      assert ("-f" + MapRunes(lower, rest))[1] == 'f';
    }
  }

  /** So are the denylisted flags. */
  lemma {:induction false} DangerousInAnyCase(lower: LowerCase, text: string, rest: string)
    requires rest == "" || rest[0] == '='
    requires AnyCase(text, "--transform", "--TRANSFORM") || AnyCase(text, "--in-place", "--IN-PLACE")
             || AnyCase(text, "--no-copy", "--NO-COPY")
    ensures IsDangerous(lower, text + rest)
  {
    hide Spells;
    if AnyCase(text, "--transform", "--TRANSFORM") {
      AnyCaseSpells(lower, text, rest, "--transform", "--TRANSFORM");
      assert DANGEROUS_FLAGS[0] == "--transform";
    } else if AnyCase(text, "--in-place", "--IN-PLACE") {
      AnyCaseSpells(lower, text, rest, "--in-place", "--IN-PLACE");
      assert DANGEROUS_FLAGS[1] == "--in-place";
    } else {
      AnyCaseSpells(lower, text, rest, "--no-copy", "--NO-COPY");
      assert DANGEROUS_FLAGS[2] == "--no-copy";
    }
  }

  // ----- command lines -----

  datatype Action = Group | Remove | Link | Dedupe

  function ActionName(a: Action): string {
    match a
    case Group => "group"
    case Remove => "remove"
    case Link => "link"
    case Dedupe => "dedupe"
  }

  datatype Config = Config(scanPath: string, args: string, action: Action, actionArgs: string)

  function BuildScanArgs(cfg: Config): ParseResult {
    match Parse(cfg.scanPath)
    case Err(e) => Err(e)
    case Ok(paths) =>
      var cmd := [ActionName(Group)] + paths;
      if cfg.args != "" then
        match Parse(cfg.args)
        case Err(e) => Err(e)
        case Ok(extra) => Ok(cmd + extra + ["--cache", "-f", "json"])
      else Ok(cmd + ["--cache", "-f", "json"])
  }

  /** No command line at all for the report-only action. */
  datatype ActionCommand = NoAction | Command(res: ParseResult)

  function BuildActionArgs(cfg: Config): ActionCommand {
    if cfg.action == Group then NoAction
    else if cfg.actionArgs != "" then
      match Parse(cfg.actionArgs)
      case Err(e) => Command(Err(e))
      case Ok(extra) => Command(Ok([ActionName(cfg.action)] + extra))
    else Command(Ok([ActionName(cfg.action)]))
  }

  function Flags(args: seq<string>): nat {
    if args == [] then 0 else Flags(args[..|args| - 1]) + if IsFlag(args[|args| - 1]) then 1 else 0
  }

  /** Every non-flag stands directly behind a token that starts like a flag, a different one each, so
      they cannot outnumber those. */
  lemma {:induction false} PlacedCounts(args: seq<string>)
    requires forall i :: 0 <= i < |args| ==> Placed(args, i)
    ensures |args| <= 2 * Flags(args)
    ensures args != [] ==> |args[0]| > 0 && args[0][0] == '-' && args[0] != "--"
    ensures args != [] && IsFlag(args[|args| - 1]) ==> |args| < 2 * Flags(args)
  {
    hide IsFlag;
    if args != [] {
      FlagOrBare(args[0]);
      var r := args[..|args| - 1];
      assert Placed(args, 0) && Placed(args, |args| - 1);
      forall i | 0 <= i < |r| ensures Placed(r, i) {
        assert Placed(args, i);
      }
      PlacedCounts(r);
    }
  }

  /** Both builders succeed on a configuration accepted at startup. The scan command is the scan paths,
      the extra arguments and the wrapper's own flags; no extra argument is one the ownership gate
      refuses, and every argument that does not start like a flag stands directly behind one that does. */
  lemma {:induction false} AcceptedConfigBuilds(lower: LowerCase, unsafeAllowed: bool, cfg: Config)
    returns (paths: seq<string>, extra: seq<string>, actionExtra: seq<string>)
    requires Accepted(lower, unsafeAllowed, Values(cfg.args, cfg.actionArgs, cfg.scanPath))
    ensures Parse(cfg.scanPath) == Ok(paths) && Parse(cfg.args) == Ok(extra) && Parse(cfg.actionArgs) == Ok(actionExtra)
    ensures BuildScanArgs(cfg) == Ok(["group"] + paths + extra + ["--cache", "-f", "json"])
    ensures BuildActionArgs(cfg)
            == match cfg.action
               case Group => NoAction
               case Remove => Command(Ok(["remove"] + actionExtra))
               case Link => Command(Ok(["link"] + actionExtra))
               case Dedupe => Command(Ok(["dedupe"] + actionExtra))
    ensures forall i :: 0 <= i < |extra| ==> !IsOwned(lower, extra[i])
    ensures BareApart(extra) && BareApart(actionExtra)
    ensures |extra| <= 2 * Flags(extra) && |actionExtra| <= 2 * Flags(actionExtra)
    ensures !unsafeAllowed ==> (forall i :: 0 <= i < |paths| ==> !IsDangerous(lower, paths[i]))
                               && (forall i :: 0 <= i < |extra| ==> !IsDangerous(lower, extra[i]))
                               && (forall i :: 0 <= i < |actionExtra| ==> !IsDangerous(lower, actionExtra[i]))
  {
    ParseNothing();
    hide Parse, IsDangerous, IsOwned, Placed, BareApart;
    paths, extra, actionExtra := Parse(cfg.scanPath).args, Parse(cfg.args).args, Parse(cfg.actionArgs).args;
    PlacedCounts(extra);
    PlacedCounts(actionExtra);
    PlacedExactly(extra);
    PlacedExactly(actionExtra);
    assert [ActionName(cfg.action)] + [] == [ActionName(cfg.action)];
    assert ["group"] + paths + [] == ["group"] + paths;
  }
}
