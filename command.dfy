/** The argument vector that psudohash_helper.py builds for psudohash.py
    from the operator's answers. */
module Command {
  import opened Wrappers
  import opened Text

  /** The answers `main` has collected before it builds the command. A
      field whose gate was declined keeps the initial value `main` gives
      it: "" for the texts and `Some("")` for the years; the padding
      switches, which Python leaves unset then, are false. */
  datatype Config = Config(
    keywords: seq<string>,
    numbering: bool, numberingLevel: string, numberingLimit: string,
    years: bool, yearsSpec: Option<string>,
    paddings: bool, padBefore: bool, padAfter: bool, customPaddings: string,
    outputFile: string)

  /** What the prompts guarantee of a configuration that reaches the
      assembly step: at least one keyword, each non-empty and stripped;
      a gated text left at its initial value when its gate is off; the
      numbering level and limit and the output file never empty, since
      their prompts have non-empty defaults. */
  predicate Collected(cfg: Config) {
    && |cfg.keywords| > 0
    && (forall i :: 0 <= i < |cfg.keywords| ==> cfg.keywords[i] != "" && Trimmed(cfg.keywords[i]))
    && (cfg.numbering ==> cfg.numberingLevel != "" && cfg.numberingLimit != "")
    && (!cfg.numbering ==> cfg.numberingLevel == "" && cfg.numberingLimit == "")
    && (!cfg.years ==> cfg.yearsSpec == Some(""))
    && (!cfg.paddings ==> !cfg.padBefore && !cfg.padAfter && cfg.customPaddings == "")
    && cfg.outputFile != ""
  }

  /** The options of psudohash.py that the helper passes. */
  datatype Flag = Words | Output | NumberingLevel | NumberingLimit | Years | PadStart | PadEnd | CustomPaddings

  /** The token that spells each flag on the command line. */
  function Name(f: Flag): string {
    match f
    case Words => "-w"
    case Output => "-o"
    case NumberingLevel => "-an"
    case NumberingLimit => "-nl"
    case Years => "-y"
    case PadStart => "-cpb"
    case PadEnd => "-cpa"
    case CustomPaddings => "-ap"
  }

  /** The flag a token spells, if any. */
  function FlagOf(token: string): Option<Flag> {
    if token == "-w" then Some(Words)
    else if token == "-o" then Some(Output)
    else if token == "-an" then Some(NumberingLevel)
    else if token == "-nl" then Some(NumberingLimit)
    else if token == "-y" then Some(Years)
    else if token == "-cpb" then Some(PadStart)
    else if token == "-cpa" then Some(PadEnd)
    else if token == "-ap" then Some(CustomPaddings)
    else None
  }

  /** The two pad switches are the only flags without a value. */
  predicate TakesValue(f: Flag) {
    !(f == PadStart || f == PadEnd)
  }

  /** Position of a flag in the fixed order `-w -o -an -nl -y -cpb -cpa -ap`. */
  function Rank(f: Flag): nat {
    match f
    case Words => 0
    case Output => 1
    case NumberingLevel => 2
    case NumberingLimit => 3
    case Years => 4
    case PadStart => 5
    case PadEnd => 6
    case CustomPaddings => 7
  }

  /** One command-line option: a flag and, for flags that take one, its
      value. */
  datatype Opt = Opt(flag: Flag, value: Option<string>)

  const LAUNCHER: seq<string> := ["python3", "psudohash.py"]

  predicate WellFormed(opts: seq<Opt>) {
    forall i :: 0 <= i < |opts| ==> (opts[i].value.Some? <==> TakesValue(opts[i].flag))
  }

  predicate HasFlag(opts: seq<Opt>, f: Flag) {
    exists i :: 0 <= i < |opts| && opts[i].flag == f
  }

  /** The configuration field each flag carries. */
  function ValueFor(cfg: Config, f: Flag): Option<string> {
    match f
    case Words => Some(Join(cfg.keywords, ','))
    case Output => Some(cfg.outputFile)
    case NumberingLevel => Some(cfg.numberingLevel)
    case NumberingLimit => Some(cfg.numberingLimit)
    case Years => cfg.yearsSpec
    case PadStart => None
    case PadEnd => None
    case CustomPaddings => Some(cfg.customPaddings)
  }

  function Tokens(o: Opt): seq<string> {
    match o.value
    case None => [Name(o.flag)]
    case Some(v) => [Name(o.flag), v]
  }

  /** The tokens of an option list, each option's flag followed by its
      value, if any. */
  function Render(opts: seq<Opt>): seq<string> {
    if opts == [] then [] else Tokens(opts[0]) + Render(opts[1..])
  }

  /** A reader for rendered options: a flag token, then a value token when
      the flag takes one. */
  function Parse(tokens: seq<string>): Option<seq<Opt>>
    decreases |tokens|
  {
    if tokens == [] then Some([])
    else match FlagOf(tokens[0])
      case None => None
      case Some(f) =>
        if TakesValue(f) then
          if |tokens| == 1 then None
          else match Parse(tokens[2..])
            case None => None
            case Some(rest) => Some([Opt(f, Some(tokens[1]))] + rest)
        else match Parse(tokens[1..])
          case None => None
          case Some(rest) => Some([Opt(f, None)] + rest)
  }

  function BaseOptions(cfg: Config): seq<Opt> {
    [Opt(Words, Some(Join(cfg.keywords, ','))), Opt(Output, Some(cfg.outputFile))]
  }

  function NumberingOptions(cfg: Config): seq<Opt> {
    if cfg.numbering then [Opt(NumberingLevel, Some(cfg.numberingLevel)), Opt(NumberingLimit, Some(cfg.numberingLimit))] else []
  }

  function YearsOptions(cfg: Config): seq<Opt> {
    if cfg.years && Truthy(cfg.yearsSpec) then [Opt(Years, cfg.yearsSpec)] else []
  }

  function PaddingOptions(cfg: Config): seq<Opt> {
    if cfg.paddings then
      (if cfg.padBefore then [Opt(PadStart, None)] else [])
      + (if cfg.padAfter then [Opt(PadEnd, None)] else [])
      + (if cfg.customPaddings != "" then [Opt(CustomPaddings, Some(cfg.customPaddings))] else [])
    else []
  }

  /** The options `main` passes on: the words and the output file, then
      the numbering pair, then the years, then the paddings, each group
      under its gate. */
  function Options(cfg: Config): seq<Opt> {
    BaseOptions(cfg) + NumberingOptions(cfg) + YearsOptions(cfg) + PaddingOptions(cfg)
  }

  /** The whole argument vector handed to the process launcher. */
  function CommandLine(cfg: Config): seq<string> {
    LAUNCHER + Render(Options(cfg))
  }

  lemma {:induction false} RenderAppend(a: seq<Opt>, b: seq<Opt>)
    ensures Render(a + b) == Render(a) + Render(b)
  {
    if a != [] {
      assert (a + b)[1..] == a[1..] + b;
      RenderAppend(a[1..], b);
    } else {
      assert a + b == b;
    }
  }

  lemma RenderOne(o: Opt)
    ensures Render([o]) == Tokens(o)
  {
    assert [o][1..] == [];
  }

  lemma RenderTwo(a: Opt, b: Opt)
    ensures Render([a, b]) == Tokens(a) + Tokens(b)
  {
    RenderOne(a);
    RenderOne(b);
    RenderAppend([a], [b]);
    assert [a] + [b] == [a, b];
  }

  lemma BaseTokens(cfg: Config)
    ensures Render(BaseOptions(cfg)) == ["-w", Join(cfg.keywords, ','), "-o", cfg.outputFile]
  {
    var base := BaseOptions(cfg);
    RenderTwo(base[0], base[1]);
  }

  lemma NumberingTokens(cfg: Config)
    ensures Render(NumberingOptions(cfg)) ==
              if cfg.numbering then ["-an", cfg.numberingLevel, "-nl", cfg.numberingLimit] else []
  {
    var numbering := NumberingOptions(cfg);
    if cfg.numbering {
      RenderTwo(numbering[0], numbering[1]);
    }
  }

  lemma YearsTokens(cfg: Config)
    ensures Render(YearsOptions(cfg)) ==
              if cfg.years && Truthy(cfg.yearsSpec) then ["-y", cfg.yearsSpec.value] else []
  {
    var years := YearsOptions(cfg);
    if years != [] {
      RenderOne(years[0]);
    }
  }

  lemma PaddingTokens(cfg: Config)
    ensures Render(PaddingOptions(cfg)) ==
              if cfg.paddings then
                (if cfg.padBefore then ["-cpb"] else [])
                + (if cfg.padAfter then ["-cpa"] else [])
                + (if cfg.customPaddings != "" then ["-ap", cfg.customPaddings] else [])
              else []
  {
    if cfg.paddings {
      var before := if cfg.padBefore then [Opt(PadStart, None)] else [];
      var after := if cfg.padAfter then [Opt(PadEnd, None)] else [];
      var custom := if cfg.customPaddings != "" then [Opt(CustomPaddings, Some(cfg.customPaddings))] else [];
      RenderAppend(before + after, custom);
      RenderAppend(before, after);
      RenderOne(Opt(PadStart, None));
      RenderOne(Opt(PadEnd, None));
      RenderOne(Opt(CustomPaddings, Some(cfg.customPaddings)));
    }
  }

  /** The command line is the launcher followed by each group's tokens. */
  lemma CommandGroups(cfg: Config)
    ensures CommandLine(cfg) ==
              LAUNCHER + Render(BaseOptions(cfg)) + Render(NumberingOptions(cfg))
              + Render(YearsOptions(cfg)) + Render(PaddingOptions(cfg))
  {
    var base, numbering := BaseOptions(cfg), NumberingOptions(cfg);
    var years, paddings := YearsOptions(cfg), PaddingOptions(cfg);
    RenderAppend(base + numbering + years, paddings);
    RenderAppend(base + numbering, years);
    RenderAppend(base, numbering);
    PrependFour(LAUNCHER, Render(base), Render(numbering), Render(years), Render(paddings));
  }

  lemma PrependFour(l: seq<string>, a: seq<string>, b: seq<string>, c: seq<string>, d: seq<string>)
    ensures l + (a + b + c + d) == l + a + b + c + d
  {}

  lemma Reassociate(s: seq<string>, a: seq<string>, b: seq<string>)
    ensures s + a + b == s + (a + b)
  {}

  lemma AppendThree(s: seq<string>, a: seq<string>, b: seq<string>, c: seq<string>)
    ensures s + a + b + c == s + (a + b + c)
  {}

  /** Each flag's token reads back as that flag. */
  lemma FlagOfName(f: Flag)
    ensures FlagOf(Name(f)) == Some(f)
  {}

  /** Reading a rendered option list back gives the same options, whatever
      text the values hold (even a value that spells a flag). */
  lemma {:induction false} ParseRender(opts: seq<Opt>)
    requires WellFormed(opts)
    ensures Parse(Render(opts)) == Some(opts)
  {
    if opts != [] {
      var o, rest := opts[0], opts[1..];
      assert opts == [o] + rest;
      ParseRender(rest);
      FlagOfName(o.flag);
      var tokens := Render(opts);
      assert tokens == Tokens(o) + Render(rest);
      if o.value.Some? {
        assert tokens[2..] == Render(rest);
      } else {
        assert tokens[1..] == Render(rest);
      }
    }
  }

  /** Flags appear in strictly increasing rank, hence each at most once
      and in the fixed order, and all ranks lie in [lo, hi). */
  predicate OrderedWithin(opts: seq<Opt>, lo: nat, hi: nat) {
    && (forall i :: 0 <= i < |opts| ==> lo <= Rank(opts[i].flag) < hi)
    && (forall i, j :: 0 <= i < j < |opts| ==> Rank(opts[i].flag) < Rank(opts[j].flag))
  }

  /** Every option carries the configuration field its flag stands for. */
  predicate CarriesFields(cfg: Config, opts: seq<Opt>) {
    forall i :: 0 <= i < |opts| ==> opts[i].value == ValueFor(cfg, opts[i].flag)
  }

  lemma OrderedAppend(a: seq<Opt>, b: seq<Opt>, lo: nat, mid: nat, hi: nat)
    requires lo <= mid <= hi
    requires OrderedWithin(a, lo, mid) && OrderedWithin(b, mid, hi)
    ensures OrderedWithin(a + b, lo, hi)
  {
    var ab := a + b;
    forall i | 0 <= i < |ab| ensures lo <= Rank(ab[i].flag) < hi {
      if i < |a| {
        assert ab[i] == a[i];
      } else {
        assert ab[i] == b[i - |a|];
      }
    }
    forall i, j | 0 <= i < j < |ab| ensures Rank(ab[i].flag) < Rank(ab[j].flag) {
      if j < |a| {
        assert ab[i] == a[i] && ab[j] == a[j];
      } else if i >= |a| {
        assert ab[i] == b[i - |a|] && ab[j] == b[j - |a|];
      } else {
        assert ab[i] == a[i] && ab[j] == b[j - |a|];
      }
    }
  }

  lemma FlagsAppend(a: seq<Opt>, b: seq<Opt>, flag: Flag)
    ensures HasFlag(a + b, flag) <==> HasFlag(a, flag) || HasFlag(b, flag)
  {
    var ab := a + b;
    if HasFlag(ab, flag) {
      var i :| 0 <= i < |ab| && ab[i].flag == flag;
      if i < |a| {
        assert a[i] == ab[i];
      } else {
        assert b[i - |a|] == ab[i];
      }
    }
    if HasFlag(a, flag) {
      var i :| 0 <= i < |a| && a[i].flag == flag;
      assert ab[i] == a[i];
    }
    if HasFlag(b, flag) {
      var i :| 0 <= i < |b| && b[i].flag == flag;
      assert ab[|a| + i] == b[i];
    }
  }

  lemma CarriesAppend(cfg: Config, a: seq<Opt>, b: seq<Opt>)
    requires CarriesFields(cfg, a) && CarriesFields(cfg, b)
    requires WellFormed(a) && WellFormed(b)
    ensures CarriesFields(cfg, a + b) && WellFormed(a + b)
  {
    var ab := a + b;
    forall i | 0 <= i < |ab| ensures ab[i] == if i < |a| then a[i] else b[i - |a|] {}
  }

  /** The padding group split into its three gated parts. */
  lemma PaddingParts(cfg: Config) returns (before: seq<Opt>, after: seq<Opt>, custom: seq<Opt>)
    requires cfg.paddings
    ensures PaddingOptions(cfg) == before + after + custom
    ensures before == if cfg.padBefore then [Opt(PadStart, None)] else []
    ensures after == if cfg.padAfter then [Opt(PadEnd, None)] else []
    ensures custom == if cfg.customPaddings != "" then [Opt(CustomPaddings, Some(cfg.customPaddings))] else []
  {
    before := if cfg.padBefore then [Opt(PadStart, None)] else [];
    after := if cfg.padAfter then [Opt(PadEnd, None)] else [];
    custom := if cfg.customPaddings != "" then [Opt(CustomPaddings, Some(cfg.customPaddings))] else [];
  }

  lemma OrderedAtMostOne(opts: seq<Opt>, lo: nat, hi: nat)
    requires |opts| <= 1
    requires forall i :: 0 <= i < |opts| ==> lo <= Rank(opts[i].flag) < hi
    ensures OrderedWithin(opts, lo, hi)
  {}

  lemma OrderedPair(opts: seq<Opt>, lo: nat, hi: nat)
    requires |opts| == 2
    requires lo <= Rank(opts[0].flag) < Rank(opts[1].flag) < hi
    ensures OrderedWithin(opts, lo, hi)
  {}

  lemma PaddingOrdered(cfg: Config)
    ensures OrderedWithin(PaddingOptions(cfg), 5, 8)
  {
    var opts := PaddingOptions(cfg);
    forall i | 0 <= i < |opts| ensures 5 <= Rank(opts[i].flag) < 8 {
      PaddingFlagAt(cfg, i);
    }
    forall i, j | 0 <= i < j < |opts| ensures Rank(opts[i].flag) < Rank(opts[j].flag) {
      PaddingFlagAt(cfg, i);
      PaddingFlagAt(cfg, j);
    }
  }

  /** The flag at each position of the padding group: the switches that
      were chosen, in order, then `-ap`. */
  lemma PaddingFlagAt(cfg: Config, i: nat)
    requires i < |PaddingOptions(cfg)|
    ensures var before := if cfg.padBefore then 1 else 0;
            var after := if cfg.padAfter then 1 else 0;
            PaddingOptions(cfg)[i].flag ==
              if i < before then PadStart
              else if i < before + after then PadEnd
              else CustomPaddings
  {
    var before, after, custom := PaddingParts(cfg);
    var opts := PaddingOptions(cfg);
    if i < |before| {
      assert opts[i] == before[i];
    } else if i < |before| + |after| {
      assert opts[i] == after[i - |before|];
    } else {
      assert opts[i] == custom[i - |before| - |after|];
    }
  }

  lemma PaddingCarries(cfg: Config)
    ensures CarriesFields(cfg, PaddingOptions(cfg)) && WellFormed(PaddingOptions(cfg))
  {
    if cfg.paddings {
      var before, after, custom := PaddingParts(cfg);
      CarriesAppend(cfg, before, after);
      CarriesAppend(cfg, before + after, custom);
    }
  }

  /** The option list has the gated groups in the fixed order, and nothing
      else: `-w` and `-o` always; `-an` and `-nl` exactly when numbering
      was accepted; `-y` exactly when years were accepted and the years
      answer is non-empty; `-cpb`, `-cpa` and `-ap` only when paddings were
      accepted, each under its own answer. */
  lemma OptionsFlags(cfg: Config)
    ensures HasFlag(Options(cfg), Words) && HasFlag(Options(cfg), Output)
    ensures HasFlag(Options(cfg), NumberingLevel) <==> cfg.numbering
    ensures HasFlag(Options(cfg), NumberingLimit) <==> cfg.numbering
    ensures HasFlag(Options(cfg), Years) <==> cfg.years && Truthy(cfg.yearsSpec)
    ensures HasFlag(Options(cfg), PadStart) <==> cfg.paddings && cfg.padBefore
    ensures HasFlag(Options(cfg), PadEnd) <==> cfg.paddings && cfg.padAfter
    ensures HasFlag(Options(cfg), CustomPaddings) <==> cfg.paddings && cfg.customPaddings != ""
  {
    FlagPresent(cfg, Words);
    FlagPresent(cfg, Output);
    FlagPresent(cfg, NumberingLevel);
    FlagPresent(cfg, NumberingLimit);
    FlagPresent(cfg, Years);
    FlagPresent(cfg, PadStart);
    FlagPresent(cfg, PadEnd);
    FlagPresent(cfg, CustomPaddings);
  }

  /** When each flag is passed, read off the gates of `main`. */
  predicate Selected(cfg: Config, f: Flag) {
    match f
    case Words => true
    case Output => true
    case NumberingLevel => cfg.numbering
    case NumberingLimit => cfg.numbering
    case Years => cfg.years && Truthy(cfg.yearsSpec)
    case PadStart => cfg.paddings && cfg.padBefore
    case PadEnd => cfg.paddings && cfg.padAfter
    case CustomPaddings => cfg.paddings && cfg.customPaddings != ""
  }

  lemma FlagPresent(cfg: Config, f: Flag)
    ensures HasFlag(Options(cfg), f) <==> Selected(cfg, f)
  {
    var base, numbering := BaseOptions(cfg), NumberingOptions(cfg);
    var years, paddings := YearsOptions(cfg), PaddingOptions(cfg);
    FlagsAppend(base + numbering + years, paddings, f);
    FlagsAppend(base + numbering, years, f);
    FlagsAppend(base, numbering, f);
    BaseFlags(cfg, f);
    NumberingFlags(cfg, f);
    YearsFlags(cfg, f);
    PaddingFlags(cfg, f);
  }

  lemma BaseFlags(cfg: Config, f: Flag)
    ensures HasFlag(BaseOptions(cfg), f) <==> Selected(cfg, f) && Rank(f) < 2
  {
    var base := BaseOptions(cfg);
    assert base[0].flag == Words && base[1].flag == Output;
  }

  lemma NumberingFlags(cfg: Config, f: Flag)
    ensures HasFlag(NumberingOptions(cfg), f) <==> Selected(cfg, f) && 2 <= Rank(f) < 4
  {
    var numbering := NumberingOptions(cfg);
    if cfg.numbering {
      assert numbering[0].flag == NumberingLevel && numbering[1].flag == NumberingLimit;
    }
  }

  lemma YearsFlags(cfg: Config, f: Flag)
    ensures HasFlag(YearsOptions(cfg), f) <==> Selected(cfg, f) && Rank(f) == 4
  {
    var years := YearsOptions(cfg);
    if years != [] {
      assert years[0].flag == Years;
    }
  }

  lemma PaddingFlags(cfg: Config, f: Flag)
    ensures HasFlag(PaddingOptions(cfg), f) <==> Selected(cfg, f) && 5 <= Rank(f)
  {
    if cfg.paddings {
      var before, after, custom := PaddingParts(cfg);
      assert HasFlag(before, f) <==> cfg.padBefore && f == PadStart by {
        if cfg.padBefore { assert before[0].flag == PadStart; }
      }
      assert HasFlag(after, f) <==> cfg.padAfter && f == PadEnd by {
        if cfg.padAfter { assert after[0].flag == PadEnd; }
      }
      assert HasFlag(custom, f) <==> cfg.customPaddings != "" && f == CustomPaddings by {
        if cfg.customPaddings != "" { assert custom[0].flag == CustomPaddings; }
      }
      FlagsAppend(before + after, custom, f);
      FlagsAppend(before, after, f);
    }
  }

  /** Flags follow the fixed order `-w -o -an -nl -y -cpb -cpa -ap`, so
      none appears twice and the groups never interleave. */
  lemma OptionsOrdered(cfg: Config)
    ensures forall i, j :: 0 <= i < j < |Options(cfg)| ==>
              Rank(Options(cfg)[i].flag) < Rank(Options(cfg)[j].flag)
  {
    var base, numbering := BaseOptions(cfg), NumberingOptions(cfg);
    var years, paddings := YearsOptions(cfg), PaddingOptions(cfg);
    PaddingOrdered(cfg);
    OrderedPair(base, 0, 2);
    if cfg.numbering {
      OrderedPair(numbering, 2, 4);
    }
    OrderedAtMostOne(years, 4, 5);
    OrderedAppend(base, numbering, 0, 2, 4);
    OrderedAppend(base + numbering, years, 0, 4, 5);
    OrderedAppend(base + numbering + years, paddings, 0, 5, 8);
  }

  /** Every option is well formed (a value exactly for the flags that take
      one) and carries the configuration field its flag stands for. */
  lemma OptionsValues(cfg: Config)
    ensures WellFormed(Options(cfg))
    ensures forall i :: 0 <= i < |Options(cfg)| ==>
              Options(cfg)[i].value == ValueFor(cfg, Options(cfg)[i].flag)
  {
    var base, numbering := BaseOptions(cfg), NumberingOptions(cfg);
    var years, paddings := YearsOptions(cfg), PaddingOptions(cfg);
    PaddingCarries(cfg);
    CarriesAppend(cfg, base, numbering);
    CarriesAppend(cfg, base + numbering, years);
    CarriesAppend(cfg, base + numbering + years, paddings);
  }

  /** Reading the assembled command back, past the launcher, gives exactly
      the configured options. */
  lemma CommandParses(cfg: Config)
    ensures CommandLine(cfg)[..2] == LAUNCHER
    ensures Parse(CommandLine(cfg)[2..]) == Some(Options(cfg))
  {
    OptionsValues(cfg);
    ParseRender(Options(cfg));
    assert CommandLine(cfg)[2..] == Render(Options(cfg));
  }

  /** Token positions: the six base tokens first, then the numbering
      pair right after them when it is present; the length counts each
      group under its gates. */
  lemma CommandLayout(cfg: Config)
    ensures |CommandLine(cfg)| ==
              6 + (if cfg.numbering then 4 else 0)
              + (if cfg.years && Truthy(cfg.yearsSpec) then 2 else 0)
              + (if cfg.paddings then
                   (if cfg.padBefore then 1 else 0) + (if cfg.padAfter then 1 else 0)
                   + (if cfg.customPaddings != "" then 2 else 0)
                 else 0)
    ensures CommandLine(cfg)[..6] ==
              ["python3", "psudohash.py", "-w", Join(cfg.keywords, ','), "-o", cfg.outputFile]
    ensures cfg.numbering ==>
              CommandLine(cfg)[6..10] == ["-an", cfg.numberingLevel, "-nl", cfg.numberingLimit]
  {
    var head := LAUNCHER + Render(BaseOptions(cfg));
    var numbering := Render(NumberingOptions(cfg));
    var tail := Render(YearsOptions(cfg)) + Render(PaddingOptions(cfg));
    CommandThirds(cfg);
    TailLength(cfg);
    assert head == ["python3", "psudohash.py", "-w", Join(cfg.keywords, ','), "-o", cfg.outputFile] by {
      BaseTokens(cfg);
    }
    assert numbering == if cfg.numbering then ["-an", cfg.numberingLevel, "-nl", cfg.numberingLimit] else [] by {
      NumberingTokens(cfg);
    }
    SliceOfFront(head + numbering, tail, 0, 6);
    SliceOfFront(head, numbering, 0, 6);
    if cfg.numbering {
      SliceOfFront(head + numbering, tail, 6, 10);
    }
  }

  /** The command as its fixed head, the numbering pair and the rest. */
  lemma CommandThirds(cfg: Config)
    ensures CommandLine(cfg) ==
              LAUNCHER + Render(BaseOptions(cfg)) + Render(NumberingOptions(cfg))
              + (Render(YearsOptions(cfg)) + Render(PaddingOptions(cfg)))
  {
    CommandGroups(cfg);
    Reassociate(LAUNCHER + Render(BaseOptions(cfg)) + Render(NumberingOptions(cfg)),
                Render(YearsOptions(cfg)), Render(PaddingOptions(cfg)));
  }

  lemma TailLength(cfg: Config)
    ensures |Render(YearsOptions(cfg)) + Render(PaddingOptions(cfg))| ==
              (if cfg.years && Truthy(cfg.yearsSpec) then 2 else 0)
              + (if cfg.paddings then
                   (if cfg.padBefore then 1 else 0) + (if cfg.padAfter then 1 else 0)
                   + (if cfg.customPaddings != "" then 2 else 0)
                 else 0)
  {
    YearsTokens(cfg);
    PaddingTokens(cfg);
  }

  /** A slice inside the front part of a concatenation. */
  lemma SliceOfFront(s: seq<string>, t: seq<string>, i: nat, j: nat)
    requires i <= j <= |s|
    ensures (s + t)[i..j] == s[i..j]
  {}

  predicate NoEmptyToken(tokens: seq<string>) {
    forall i :: 0 <= i < |tokens| ==> tokens[i] != ""
  }

  /** Under the prompts' guarantees no token of the command is empty: the
      gates on years and custom paddings keep an empty answer out. */
  lemma CommandTokensNonEmpty(cfg: Config)
    requires Collected(cfg)
    ensures forall i :: 0 <= i < |CommandLine(cfg)| ==> CommandLine(cfg)[i] != ""
  {
    var base, numbering := Render(BaseOptions(cfg)), Render(NumberingOptions(cfg));
    var years, paddings := Render(YearsOptions(cfg)), Render(PaddingOptions(cfg));
    BaseNonEmpty(cfg);
    GatedNonEmpty(cfg);
    assert NoEmptyToken(LAUNCHER);
    NoEmptyTokenAppend(LAUNCHER, base);
    NoEmptyTokenAppend(LAUNCHER + base, numbering);
    NoEmptyTokenAppend(LAUNCHER + base + numbering, years);
    NoEmptyTokenAppend(LAUNCHER + base + numbering + years, paddings);
    CommandGroups(cfg);
    assert NoEmptyToken(CommandLine(cfg));
  }

  lemma BaseNonEmpty(cfg: Config)
    requires Collected(cfg)
    ensures NoEmptyToken(Render(BaseOptions(cfg)))
  {
    BaseTokens(cfg);
    assert Join(cfg.keywords, ',') != "";
  }

  lemma GatedNonEmpty(cfg: Config)
    requires Collected(cfg)
    ensures NoEmptyToken(Render(NumberingOptions(cfg)))
    ensures NoEmptyToken(Render(YearsOptions(cfg)))
    ensures NoEmptyToken(Render(PaddingOptions(cfg)))
  {
    NumberingTokens(cfg);
    YearsTokens(cfg);
    PaddingNonEmpty(cfg);
  }

  lemma PaddingNonEmpty(cfg: Config)
    ensures NoEmptyToken(Render(PaddingOptions(cfg)))
  {
    PaddingTokens(cfg);
    var before: seq<string> := if cfg.padBefore then ["-cpb"] else [];
    var after: seq<string> := if cfg.padAfter then ["-cpa"] else [];
    var custom: seq<string> := if cfg.customPaddings != "" then ["-ap", cfg.customPaddings] else [];
    if cfg.paddings {
      assert NoEmptyToken(before) && NoEmptyToken(after) && NoEmptyToken(custom);
      NoEmptyTokenAppend(before, after);
      NoEmptyTokenAppend(before + after, custom);
    }
  }

  lemma NoEmptyTokenAppend(a: seq<string>, b: seq<string>)
    requires NoEmptyToken(a) && NoEmptyToken(b)
    ensures NoEmptyToken(a + b)
  {
    forall i | 0 <= i < |a + b| ensures (a + b)[i] != "" {
      if i >= |a| {
        assert (a + b)[i] == b[i - |a|];
      }
    }
  }

  /** A field whose gate is off never reaches the command. */
  lemma DisabledFieldsIgnored(cfg: Config, level: string, limit: string, spec: Option<string>,
                              before: bool, after: bool, custom: string)
    ensures !cfg.numbering ==>
              Options(cfg.(numberingLevel := level, numberingLimit := limit)) == Options(cfg)
    ensures !cfg.years ==> Options(cfg.(yearsSpec := spec)) == Options(cfg)
    ensures !cfg.paddings ==>
              Options(cfg.(padBefore := before, padAfter := after, customPaddings := custom)) == Options(cfg)
  {}

  /** Two keywords, every gate declined, the default output file. */
  lemma MinimalCommand()
    ensures CommandLine(Config(["admin", "root"], false, "", "", false, Some(""),
                               false, false, false, "", "output.txt"))
            == ["python3", "psudohash.py", "-w", "admin,root", "-o", "output.txt"]
  {
    var cfg := Config(["admin", "root"], false, "", "", false, Some(""),
                      false, false, false, "", "output.txt");
    CommandLayout(cfg);
    assert Join(["admin", "root"], ',') == "admin,root";
  }

  /** Years accepted with "2020": the pair `-y 2020` follows the base
      tokens directly when numbering was declined. */
  lemma YearsCommand()
    ensures CommandLine(Config(["admin"], false, "", "", true, Some("2020"),
                               false, false, false, "", "out.txt"))
            == ["python3", "psudohash.py", "-w", "admin", "-o", "out.txt", "-y", "2020"]
  {
    var cfg := Config(["admin"], false, "", "", true, Some("2020"),
                      false, false, false, "", "out.txt");
    CommandGroups(cfg);
    BaseTokens(cfg);
    YearsTokens(cfg);
  }

  /** The `main` code that builds `command`: six base tokens, extended in
      place by each gated group. */
  method BuildCommand(cfg: Config) returns (command: seq<string>)
    ensures command == CommandLine(cfg)
  {
    var wordsOption := Join(cfg.keywords, ',');
    command := ["python3", "psudohash.py", "-w", wordsOption, "-o", cfg.outputFile];
    BaseTokens(cfg);
    ghost var built := LAUNCHER + Render(BaseOptions(cfg));
    assert command == built;

    if cfg.numbering {
      command := command + ["-an", cfg.numberingLevel, "-nl", cfg.numberingLimit];
    }
    NumberingTokens(cfg);
    built := built + Render(NumberingOptions(cfg));
    assert command == built;

    if cfg.years && Truthy(cfg.yearsSpec) {
      command := command + ["-y", cfg.yearsSpec.value];
    }
    YearsTokens(cfg);
    built := built + Render(YearsOptions(cfg));
    assert command == built;

    if cfg.paddings {
      ghost var before := if cfg.padBefore then ["-cpb"] else [];
      ghost var after := if cfg.padAfter then ["-cpa"] else [];
      ghost var custom := if cfg.customPaddings != "" then ["-ap", cfg.customPaddings] else [];
      if cfg.padBefore {
        command := command + ["-cpb"];
      }
      assert command == built + before;
      if cfg.padAfter {
        command := command + ["-cpa"];
      }
      assert command == built + before + after;
      if cfg.customPaddings != "" {
        command := command + ["-ap", cfg.customPaddings];
      }
      assert command == built + before + after + custom;
      AppendThree(built, before, after, custom);
    } else {
      assert command == built + [];
    }
    PaddingTokens(cfg);
    built := built + Render(PaddingOptions(cfg));
    assert command == built;
    CommandGroups(cfg);
  }
}
