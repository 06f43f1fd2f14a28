/** What the startup gates secure of the command line fclones reads: where a gate and the option parser
    agree on a token, and exactly which accepted configurations are read otherwise than meant. */
module CommandLine {
  import opened Args
  import opened ArgGates
  import opened Clap
  import opened Options
  import opened Search
  import opened Text

  /** The options the wrapper sets itself, and those on the denylist. */
  const OWNED: set<string> := {"format", "cache"}
  const DANGEROUS: set<string> := {"transform", "in-place", "no-copy"}

  // ----- the gates' reading of one token -----

  /** A text cut ahead of its first "=" is a flag, alone or with an attached value, exactly when the
      part ahead is the flag. */
  lemma {:induction false} FlagAhead(ahead: string, rest: string, flag: string)
    requires '=' !in ahead && '=' !in flag && (rest == "" || rest[0] == '=')
    ensures ahead + rest == flag || HasPrefix(ahead + rest, flag + "=") <==> ahead == flag
  {
    var l := ahead + rest;
    assert rest != "" ==> l[|ahead|] == '=';
    if HasPrefix(l, flag + "=") {
      assert l[|flag|] == (flag + "=")[|flag|] == '=';
      assert forall i :: 0 <= i < |flag| ==> l[i] == flag[i];
      assert ahead == flag;
    }
  }

  /** Lower-casing changes nothing ahead of the "=" of a readable long token. */
  lemma {:induction false} LowerKeepsName(lower: LowerCase, t: string) returns (rest: string)
    requires OptionLike(t) && t[1] == '-' && ReadToken(t).Reads?
    ensures MapRunes(lower, t) == ("--" + NameOf(t[2..])) + rest
    ensures rest == "" || rest[0] == '='
    ensures IsName(NameOf(t[2..]))
  {
    hide ArityOf;
    var body, name, l := t[2..], NameOf(t[2..]), MapRunes(lower, t);
    rest := l[2 + |name|..];
    OptionsAreNames(name);
    assert forall i :: 0 <= i < |name| ==> t[2 + i] == body[i] == name[i] && IsNameChar(name[i]);
    if EqualsAt(body) != -1 {
      assert body[EqualsAt(body)..EqualsAt(body) + 1][0] == '=';
      assert t[2 + |name|] == '=' && rest[0] == '=';
    }
  }

  /** A readable long token spells a flag, as the gates mean it, exactly when it names that option. */
  lemma {:induction false} SpellsExactly(lower: LowerCase, t: string, n: string)
    requires OptionLike(t) && t[1] == '-' && ReadToken(t).Reads? && IsName(n)
    ensures Spells(lower, t, "--" + n) <==> NameOf(t[2..]) == n
  {
    hide ReadToken, NameOf;
    var name := NameOf(t[2..]);
    var rest := LowerKeepsName(lower, t);
    FlagAhead("--" + name, rest, "--" + n);
    assert ("--" + name)[2..] == name && ("--" + n)[2..] == n;
  }

  /** A run of switches and then -f. */
  predicate ReachesF(cluster: string) {
    cluster != "" && (cluster[0] == 'f' || (IsSwitchShort(cluster[0]) && ReachesF(cluster[1..])))
  }

  /** A cluster of one or more short switches ahead of the report-format option, as in -Lfcsv. */
  predicate SwitchesThenF(t: string) {
    |t| >= 2 && t[0] == '-' && IsSwitchShort(t[1]) && ReachesF(t[2..])
  }

  lemma {:induction false} ClusterMentions(names: set<string>, cluster: string)
    requires ReadShort(cluster).Reads?
    requires forall c :: LongName(c).Some? && LongName(c).value in names ==> c == 'f'
    ensures Mentions(names, ReadShort(cluster).items, ReadShort(cluster).awaiting)
            <==> "format" in names && ReachesF(cluster)
  {
    hide LongName, ArityOf;
    if cluster != "" {
      var c := cluster[0];
      var name := LongName(c).value;
      ShortsKnown(c);
      if IsSwitch(name) {
        ClusterMentions(names, cluster[1..]);
        MentionsAppend(names, [Switch(name)], ReadShort(cluster[1..]).items, ReadShort(cluster).awaiting);
      }
      assert |ReadShort(cluster).items| > 0 ==> NameIn(names, ReadShort(cluster).items[0]) == (name in names);
    }
  }

  /** What lower-casing leaves of the first two runes of a readable option. */
  lemma {:induction false} LowerFront(lower: LowerCase, t: string)
    requires OptionLike(t) && ReadToken(t).Reads?
    ensures var l := MapRunes(lower, t);
            |l| >= 2 && l[0] == '-' && (l[1] == '-' <==> t[1] == '-') && (l[1] == 'f' <==> t[1] == 'f')
  {
    hide ArityOf, ReadLong;
    assert t[1] != '-' ==> t[1..][0] == t[1] && LongName(t[1]).Some?;
  }

  /** The gates take short and long options apart as the option parser does. */
  lemma {:induction false} ShortOrLong(lower: LowerCase, t: string)
    requires OptionLike(t) && ReadToken(t).Reads?
    ensures IsShortFormat(lower, t) <==> t[1] == 'f'
    ensures t[1] != '-' ==> forall flag :: HasPrefix(flag, "--") ==> !Spells(lower, t, flag)
  {
    hide ReadToken, MapRunes;
    LowerFront(lower, t);
    var l := MapRunes(lower, t);
    assert l[1] == 'f' ==> l[..2] == "-f";
    forall flag | t[1] != '-' && HasPrefix(flag, "--") ensures !Spells(lower, t, flag) {
      assert flag[1] == '-' && (flag + "=")[1] == '-';
    }
  }

  lemma {:induction false} LongMentions(names: set<string>, t: string)
    requires OptionLike(t) && t[1] == '-' && ReadToken(t).Reads?
    ensures TokenMentions(names, t) <==> NameOf(t[2..]) in names
  {
    hide ArityOf, NameOf;
    var r := ReadToken(t);
    assert |r.items| > 0 ==> NameIn(names, r.items[0]) == (NameOf(t[2..]) in names);
  }

  lemma {:induction false} FlagSpellings()
    ensures "--" + "format" == "--format" && "--" + "cache" == "--cache" && "--" + "transform" == "--transform"
    ensures "--" + "in-place" == "--in-place" && "--" + "no-copy" == "--no-copy"
    ensures IsName("format") && IsName("cache") && IsName("transform") && IsName("in-place") && IsName("no-copy")
  {
  }

  lemma {:induction false} OwnedShortIsF(c: char)
    ensures LongName(c).Some? && LongName(c).value in OWNED <==> c == 'f'
    ensures LongName(c).Some? ==> LongName(c).value !in DANGEROUS
  {
  }

  /** The ownership gate refuses a token fclones can read exactly when it is read as one of the
      wrapper's own options, short of one family: switches clustered ahead of the report format. */
  lemma {:induction false} OwnershipGateExactly(lower: LowerCase, t: string)
    requires OptionLike(t) && ReadToken(t).Reads?
    ensures IsOwned(lower, t) <==> TokenMentions(OWNED, t) && !SwitchesThenF(t)
    ensures SwitchesThenF(t) ==> TokenMentions(OWNED, t)
  {
    hide ArityOf, LongName, NameOf, ReadLong, ReadShort, Spells, IsShortFormat, Mentions;
    ShortOrLong(lower, t);
    FlagSpellings();
    OwnedGate(lower, t);
    NoSwitch();
    if t[1] == '-' {
      SpellsExactly(lower, t, "format");
      SpellsExactly(lower, t, "cache");
      LongMentions(OWNED, t);
    } else {
      forall c ensures LongName(c).Some? && LongName(c).value in OWNED ==> c == 'f' {
        OwnedShortIsF(c);
      }
      ClusterMentions(OWNED, t[1..]);
      assert t[1..][0] == t[1] && t[1..][1..] == t[2..];
    }
  }

  lemma {:induction false} NoSwitch()
    ensures !IsSwitchShort('-') && !IsSwitchShort('f')
  {
  }

  lemma {:induction false} OwnedGate(lower: LowerCase, t: string)
    ensures IsOwned(lower, t) <==> IsShortFormat(lower, t) || Spells(lower, t, "--format") || Spells(lower, t, "--cache")
  {
    hide Spells, IsShortFormat;
    assert WRAPPER_OWNED_FLAGS[0] == "--format" && WRAPPER_OWNED_FLAGS[1] == "--cache";
  }

  lemma {:induction false} DenylistGate(lower: LowerCase, t: string)
    ensures IsDangerous(lower, t)
            <==> Spells(lower, t, "--transform") || Spells(lower, t, "--in-place") || Spells(lower, t, "--no-copy")
  {
    hide Spells;
    assert DANGEROUS_FLAGS[0] == "--transform" && DANGEROUS_FLAGS[1] == "--in-place" && DANGEROUS_FLAGS[2] == "--no-copy";
  }

  /** The denylist gate refuses a token fclones can read exactly when it is read as a denylisted option. */
  lemma {:induction false} DenylistGateExactly(lower: LowerCase, t: string)
    requires OptionLike(t) && ReadToken(t).Reads?
    ensures IsDangerous(lower, t) <==> TokenMentions(DANGEROUS, t)
  {
    hide ArityOf, LongName, NameOf, ReadLong, ReadShort, Spells, IsShortFormat, Mentions, IsDangerous;
    ShortOrLong(lower, t);
    FlagSpellings();
    DenylistGate(lower, t);
    if t[1] == '-' {
      SpellsExactly(lower, t, "transform");
      SpellsExactly(lower, t, "in-place");
      SpellsExactly(lower, t, "no-copy");
      LongMentions(DANGEROUS, t);
    } else {
      forall c ensures LongName(c).Some? ==> LongName(c).value !in DANGEROUS {
        OwnedShortIsF(c);
      }
      ClusterMentions(DANGEROUS, t[1..]);
    }
  }

  // ----- the scan command line of an accepted configuration -----

  const SUFFIX: seq<string> := ["--cache", "-f", "json"]

  /** The tokens behind `fclones group`. */
  function ScanTokens(paths: seq<string>, extra: seq<string>): seq<string> {
    paths + extra + SUFFIX
  }

  lemma {:induction false} ScanTokensAreBuilt(cfg: Config, paths: seq<string>, extra: seq<string>)
    requires Parse(cfg.scanPath) == Ok(paths) && Parse(cfg.args) == Ok(extra)
    ensures BuildScanArgs(cfg) == Ok(["group"] + ScanTokens(paths, extra))
  {
    ParseNothing();
    hide Parse;
  }

  lemma {:induction false} OwnTokens()
    ensures OptionLike("--cache") && ReadToken("--cache") == Reads([Switch("cache")], None)
    ensures OptionLike("-f") && ReadToken("-f") == Reads([], Some("format"))
    ensures !OptionLike("json")
  {
    NameAlone("cache");
    assert "--cache"[2..] == "cache" && "-f"[1..] == "f";
  }

  lemma {:induction false} NameAlone(body: string)
    ensures '=' !in body ==> NameOf(body) == body && EqualsAt(body) == -1
  {
    if EqualsAt(body) != -1 {
      assert body[EqualsAt(body)..EqualsAt(body) + 1][0] == '=';
    }
  }

  lemma {:induction false} ReadNext(l: Line, ts: seq<string>, t: string)
    ensures ReadFrom(l, ts + [t]) == Step(ReadFrom(l, ts), t)
    ensures ReadFrom(l, []) == l
  {
    assert (ts + [t])[..|ts|] == ts;
  }

  /** The wrapper's own three tokens are read as its two options, or as paths behind a "--". */
  lemma {:induction false} SuffixRead(l: Line)
    requires ReadFrom(l, SUFFIX).Line?
    ensures l.Line?
    ensures !l.literal ==> l.awaiting == None
    ensures ReadFrom(l, SUFFIX).items
            == l.items + if l.literal then [Path("--cache"), Path("-f"), Path("json")]
                         else [Switch("cache"), Valued("format", "json")]
  {
    hide ReadToken, OptionLike, ReadFrom;
    OwnTokens();
    SuffixSteps(l);
  }

  lemma {:induction false} SuffixSteps(l: Line)
    ensures ReadFrom(l, SUFFIX) == Step(Step(Step(l, "--cache"), "-f"), "json")
  {
    hide Step, ReadFrom;
    ReadNext(l, [], "--cache");
    ReadNext(l, ["--cache"], "-f");
    ReadNext(l, ["--cache", "-f"], "json");
    assert [] + ["--cache"] == ["--cache"] && ["--cache"] + ["-f"] == ["--cache", "-f"];
    assert ["--cache", "-f"] + ["json"] == SUFFIX;
  }

  lemma {:induction false} ReachesFReadable(cluster: string)
    requires ReachesF(cluster)
    ensures ReadShort(cluster).Reads?
  {
    ShortsKnown(cluster[0]);
    hide LongName, ArityOf;
    if cluster[0] != 'f' {
      ReachesFReadable(cluster[1..]);
    }
  }

  /** A token the ownership gate lets through is read as one of the wrapper's own options exactly when
      it clusters switches ahead of the report format. */
  lemma {:induction false} PassedToken(lower: LowerCase, t: string)
    requires !IsOwned(lower, t)
    ensures TokenMentions(OWNED, t) <==> SwitchesThenF(t)
  {
    hide LongName, ReadShort, IsOwned, Mentions;
    if SwitchesThenF(t) {
      assert t[1..][0] == t[1] && t[1..][1..] == t[2..];
      NoSwitch();
      ReachesFReadable(t[1..]);
      OwnershipGateExactly(lower, t);
    } else if TokenMentions(OWNED, t) {
      OwnershipGateExactly(lower, t);
    }
  }

  /** Some extra argument ahead of any "--" clusters switches ahead of the report format. */
  predicate SomeCluster(extra: seq<string>) {
    exists i :: 0 <= i < |extra| && "--" !in extra[..i] && SwitchesThenF(extra[i])
  }

  ghost predicate Configured(lower: LowerCase, unsafeAllowed: bool, cfg: Config, paths: seq<string>, extra: seq<string>) {
    && Accepted(lower, unsafeAllowed, Values(cfg.args, cfg.actionArgs, cfg.scanPath))
    && Parse(cfg.scanPath) == Ok(paths) && Parse(cfg.args) == Ok(extra)
  }

  /** On the scan command line of an accepted configuration, where fclones can read it: the wrapper's own
      flags are read as its two options exactly when no token ahead is "--"; and another setting of
      those options stands beside them exactly when the scan paths hold one or a cluster of switches
      carries one past the gate. */
  lemma {:induction false} WrapperFlagsExactly(lower: LowerCase, unsafeAllowed: bool, cfg: Config,
                                               paths: seq<string>, extra: seq<string>)
    requires Configured(lower, unsafeAllowed, cfg, paths, extra)
    requires ReadLine(ScanTokens(paths, extra)).Line?
    ensures var user := ReadFrom(Clap.START, paths + extra);
            && user.Line?
            && ReadLine(ScanTokens(paths, extra)).items
               == user.items + (if "--" in paths + extra then [Path("--cache"), Path("-f"), Path("json")]
                                else [Switch("cache"), Valued("format", "json")])
            && (Mentions(OWNED, user.items, user.awaiting)
                <==> SomeTokenMentions(OWNED, paths) || ("--" !in paths && SomeCluster(extra)))
  {
    hide Parse, IsOwned, Mentions, TokenMentions, SwitchesThenF, Step;
    ReadAppend(Clap.START, paths + extra, SUFFIX);
    var user := ReadFrom(Clap.START, paths + extra);
    SuffixRead(user);
    MentionsExactly(OWNED, Clap.START, paths + extra);
    NothingMentioned(OWNED);
    SomeTokenAppend(OWNED, paths, extra);
    forall i | 0 <= i < |extra| ensures TokenMentions(OWNED, extra[i]) <==> SwitchesThenF(extra[i]) {
      PassedToken(lower, extra[i]);
    }
  }

  lemma {:induction false} NothingMentioned(names: set<string>)
    ensures !Mentions(names, [], None)
  {
  }

  /** The scan paths fclones reads are those of FCLONES_SCAN_PATHS alone exactly when these hold no "--"
      and every bare extra argument stands directly behind an option that takes a value and has none
      attached. Extra arguments never take a path away. */
  lemma {:induction false} ExtraPathsExactly(lower: LowerCase, unsafeAllowed: bool, cfg: Config,
                                             paths: seq<string>, extra: seq<string>)
    requires Configured(lower, unsafeAllowed, cfg, paths, extra)
    requires ReadLine(ScanTokens(paths, extra)).Line?
    ensures var given, all := ReadFrom(Clap.START, paths), ReadLine(ScanTokens(paths, extra));
            && given.Line? && PathsIn(given.items) <= PathsIn(all.items)
            && (PathsIn(all.items) == PathsIn(given.items)
                <==> "--" !in paths && BareBehindOptions(EndsWaiting(false, paths), extra))
            && ((forall i :: 0 <= i < |paths| ==> !OptionLike(paths[i]) && paths[i] != "--")
                ==> PathsIn(given.items) == paths)
  {
    hide Step, PathsIn, BareBehindOptions, EndsWaiting;
    ReadAppend(Clap.START, paths + extra, SUFFIX);
    ReadAppend(Clap.START, paths, extra);
    var given, user := ReadFrom(Clap.START, paths), ReadFrom(Clap.START, paths + extra);
    SuffixRead(user);
    PathsGrow(given, extra);
    MentionsExactly(OWNED, Clap.START, paths);
    PathFreeExactly(Clap.START, paths);
    if !given.literal {
      PathFreeExactly(given, extra);
    }
    SuffixPaths(user.items);
    if forall i :: 0 <= i < |paths| ==> !OptionLike(paths[i]) && paths[i] != "--" {
      PlainPathsRead(paths);
    }
  }

  lemma {:induction false} SuffixPaths(items: seq<Read>)
    ensures PathsIn(items + [Switch("cache"), Valued("format", "json")]) == PathsIn(items)
    ensures PathsIn(items + [Path("--cache"), Path("-f"), Path("json")]) == PathsIn(items) + SUFFIX
  {
    var own, lost := [Switch("cache"), Valued("format", "json")], [Path("--cache"), Path("-f"), Path("json")];
    PathsAppend(items, own);
    PathsAppend(items, lost);
    assert own[..1][..0] == [] && lost[..2][..1][..0] == [];
    PathsAppend([], [Switch("cache")]);
  }

  /** The placement check refuses no list of extra arguments that adds no path. */
  lemma {:induction false} PlacementNecessary(extra: seq<string>)
    requires BareBehindOptions(false, extra)
    ensures forall i :: 0 <= i < |extra| ==> Placed(extra, i)
  {
    hide ReadToken;
    forall i | 0 <= i < |extra| ensures Placed(extra, i) {
      if !OptionLike(extra[i]) {
        assert EndsWaiting(false, extra[..i]);
      }
    }
  }

  /** Unless ALLOW_UNSAFE_ARGS is set, an accepted configuration never has fclones read a denylisted
      option on the scan command, in any spelling, from the scan paths or the extra arguments. */
  lemma {:induction false} NoDangerousRead(lower: LowerCase, cfg: Config, paths: seq<string>, extra: seq<string>)
    requires Configured(lower, false, cfg, paths, extra)
    requires ReadLine(ScanTokens(paths, extra)).Line?
    ensures !Mentions(DANGEROUS, ReadLine(ScanTokens(paths, extra)).items, None)
  {
    hide Parse, IsDangerous, Mentions, TokenMentions, Step;
    var all := ScanTokens(paths, extra);
    MentionsExactly(DANGEROUS, Clap.START, all);
    NothingMentioned(DANGEROUS);
    forall i | 0 <= i < |all| ensures !TokenMentions(DANGEROUS, all[i]) {
      if i < |paths| + |extra| {
        assert !IsDangerous(lower, all[i]);
        HarmlessToken(lower, all[i]);
      } else {
        OwnTokensHarmless();
      }
    }
  }

  lemma {:induction false} HarmlessToken(lower: LowerCase, t: string)
    ensures TokenMentions(DANGEROUS, t) ==> IsDangerous(lower, t)
  {
    hide IsDangerous, Mentions;
    if TokenMentions(DANGEROUS, t) {
      DenylistGateExactly(lower, t);
    }
  }

  lemma {:induction false} OwnTokensHarmless()
    ensures forall i :: 0 <= i < |SUFFIX| ==> !TokenMentions(DANGEROUS, SUFFIX[i])
  {
    hide ReadToken, OptionLike;
    OwnTokens();
  }

  // ----- accepted configurations read otherwise than meant -----

  /** A readable token that starts with a short switch passes both gates. */
  lemma {:induction false} SwitchPasses(lower: LowerCase, t: string)
    requires OptionLike(t) && IsSwitchShort(t[1]) && ReadToken(t).Reads?
    ensures !IsOwned(lower, t) && !IsDangerous(lower, t)
  {
    hide ReadToken, IsSwitchShort, IsShortFormat, Spells;
    NoSwitch();
    ShortOrLong(lower, t);
    OwnedGate(lower, t);
    DenylistGate(lower, t);
  }

  lemma {:induction false} NoFlagPasses(lower: LowerCase, t: string)
    requires t == "--" || (t != "" && t[0] == '/')
    ensures !IsOwned(lower, t) && !IsDangerous(lower, t)
  {
    hide IsOwned, IsDangerous;
    var l := MapRunes(lower, t);
    OwnedGate(lower, t);
    DenylistGate(lower, t);
    forall flag | HasPrefix(flag, "--") && |flag| > 2 ensures !Spells(lower, t, flag) {
      assert (flag + "=")[0] == flag[0] == '-';
    }
  }

  /** A switch, or a cluster of short options that starts with one, makes any second token acceptable. */
  lemma {:induction false} SwitchAdmits(lower: LowerCase, v: string, w: string, path: string)
    requires IsBareWord(v) && IsBareWord(w) && IsBareWord(path) && path[0] == '/'
    requires OptionLike(v) && IsSwitchShort(v[1]) && ReadToken(v).Reads?
    requires w == "--" || (w != "" && w[0] == '/')
    ensures Accepted(lower, false, Values(v + " " + w, "", path))
    ensures Parse(v + " " + w) == Ok([v, w]) && Parse(path) == Ok([path])
  {
    ParseNothing();
    hide Parse, IsBareWord, IsOwned, IsDangerous, ReadToken, IsSwitchShort;
    WordsSeparated(v, w);
    BareWord(path);
    SwitchPasses(lower, v);
    NoFlagPasses(lower, w);
    NoFlagPasses(lower, path);
    assert forall i :: 0 <= i < 2 ==> Placed([v, w], i);
  }

  /** A cluster carries the report format past the gate, and takes the token behind it past the
      placement check: fclones reads "-Lfcsv /other" as -L, -f csv and one more scan path. */
  lemma {:induction false} ClusterAccepted(lower: LowerCase)
    ensures Accepted(lower, false, Values("-Lfcsv /other", "", "/data"))
    ensures Parse("-Lfcsv /other") == Ok(["-Lfcsv", "/other"])
    ensures ReadFrom(Clap.START, ["-Lfcsv", "/other"])
            == Line([Switch("follow-links"), Valued("format", "csv"), Path("/other")], None, false)
  {
    ClusterRead();
    hide ReadToken, IsSwitchShort, LongName, Accepted, Parse;
    SwitchAdmits(lower, "-Lfcsv", "/other", "/data");
    assert "-Lfcsv" + " " + "/other" == "-Lfcsv /other";
    ReadNext(Clap.START, [], "-Lfcsv");
    ReadNext(Clap.START, ["-Lfcsv"], "/other");
    assert [] + ["-Lfcsv"] == ["-Lfcsv"] && ["-Lfcsv"] + ["/other"] == ["-Lfcsv", "/other"];
  }

  lemma {:induction false} ClusterRead()
    ensures OptionLike("-Lfcsv") && IsSwitchShort('L')
    ensures ReadToken("-Lfcsv") == Reads([Switch("follow-links"), Valued("format", "csv")], None)
  {
    assert "-Lfcsv"[1..] == "Lfcsv" && "Lfcsv"[1..] == "fcsv" && "fcsv"[1..] == "csv";
    assert ReadShort("fcsv") == Reads([Valued("format", "csv")], None);
  }

  /** A "--" behind a switch passes the placement check: behind "-L --" fclones reads the wrapper's own
      flags as scan paths. */
  lemma {:induction false} SeparatorAccepted(lower: LowerCase)
    ensures Accepted(lower, false, Values("-L --", "", "/data"))
    ensures Parse("-L --") == Ok(["-L", "--"]) && Parse("/data") == Ok(["/data"])
    ensures ReadFrom(Clap.START, ["-L", "--"] + SUFFIX)
            == Line([Switch("follow-links"), Path("--cache"), Path("-f"), Path("json")], None, true)
  {
    SwitchRead();
    hide ReadToken, IsSwitchShort, LongName, Accepted, Parse, ReadFrom, Step;
    SwitchAdmits(lower, "-L", "--", "/data");
    assert "-L" + " " + "--" == "-L --";
    SeparatorRead();
  }

  lemma {:induction false} SwitchRead()
    ensures OptionLike("-L") && IsSwitchShort('L')
    ensures ReadToken("-L") == Reads([Switch("follow-links")], None)
  {
    assert "-L"[1..] == "L" && "L"[1..] == "";
    assert ReadShort("") == Reads([], None);
  }

  lemma {:induction false} SeparatorRead()
    ensures ReadFrom(Clap.START, ["-L", "--"] + SUFFIX)
            == Line([Switch("follow-links"), Path("--cache"), Path("-f"), Path("json")], None, true)
  {
    SwitchRead();
    hide ReadToken, OptionLike, ReadFrom, Parse;
    ReadNext(Clap.START, [], "-L");
    ReadNext(Clap.START, ["-L"], "--");
    assert [] + ["-L"] == ["-L"] && ["-L"] + ["--"] == ["-L", "--"];
    ReadAppend(Clap.START, ["-L", "--"], SUFFIX);
    var l := Line([Switch("follow-links")], None, true);
    assert Step(Clap.START, "-L") == l.(literal := false) && Step(l.(literal := false), "--") == l;
    SuffixSteps(l);
    assert Step(l, "--cache").items == [Switch("follow-links"), Path("--cache")];
    assert Step(Step(l, "--cache"), "-f").items == [Switch("follow-links"), Path("--cache"), Path("-f")];
  }
}
