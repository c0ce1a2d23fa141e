/** The session `main` of psudohash_helper.py runs: the prompts in their
    order, over the operator's answer lines, up to the assembled command
    and the final confirmation. */
module Helper {
  import opened Wrappers
  import opened Text
  import opened Prompts
  import opened Command

  /** How a session ends: no keyword was given, the answers ran out before
      a prompt was answered, or a command was assembled and the operator
      chose whether to run it. */
  datatype Outcome =
    | NoKeywords
    | InputEnded
    | Generated(cfg: Config, command: seq<string>, execute: bool)

  /** The answers the numbering questions read from `start`, with the
      cursor past them: the gate, then, when it is accepted, the level
      (default "1") and the limit (default "50"). Nothing when the lines
      run out first. */
  function NumberingFrom(lines: seq<string>, start: nat): (r: Option<((bool, string, string), nat)>)
    requires start <= |lines|
    ensures r.Some? ==> start < r.value.1 <= |lines|
  {
    match NextReply(lines, start)
    case None => None
    case Some((numbered, at)) =>
      if !numbered then Some(((false, "", ""), at))
      else if at + 2 > |lines| then None
      else Some(((true, GetInput(lines[at], Some("1")).value, GetInput(lines[at + 1], Some("50")).value), at + 2))
  }

  /** The answers the years questions read from `start`: the gate, then,
      when it is accepted, the years text with no default. Declined, the
      years keep their initial "". */
  function YearsFrom(lines: seq<string>, start: nat): (r: Option<((bool, Option<string>), nat)>)
    requires start <= |lines|
    ensures r.Some? ==> start < r.value.1 <= |lines|
  {
    match NextReply(lines, start)
    case None => None
    case Some((dated, at)) =>
      if !dated then Some(((false, Some("")), at))
      else if at == |lines| then None
      else Some(((true, GetInput(lines[at], None)), at + 1))
  }

  /** The answers the padding questions read from `start`: the gate, then,
      when it is accepted, the two switches and the custom symbols
      (default ""). Declined, nothing is set. */
  function PaddingsFrom(lines: seq<string>, start: nat): (r: Option<((bool, bool, bool, string), nat)>)
    requires start <= |lines|
    ensures r.Some? ==> start < r.value.1 <= |lines|
  {
    match NextReply(lines, start)
    case None => None
    case Some((padded, at)) =>
      if !padded then Some(((false, false, false, ""), at))
      else match NextReply(lines, at)
        case None => None
        case Some((before, at')) =>
          match NextReply(lines, at')
          case None => None
          case Some((after, at'')) =>
            if at'' == |lines| then None
            else Some(((true, before, after, GetInput(lines[at''], Some("")).value), at'' + 1))
  }

  /** The numbering answers as lines: accepted, the gate is line
      `next - 3`, the first yes-or-no line from `start`, and the level and
      limit are read from the two lines after it; declined, the gate is
      line `next - 1` and both texts stay empty. */
  predicate NumberingAnswers(lines: seq<string>, start: nat, part: (bool, string, string), next: nat) {
    && next <= |lines|
    && if part.0 then
         && start + 3 <= next
         && FirstAt(Replies(lines), start, next - 3, Yes)
         && part.1 == GetInput(lines[next - 2], Some("1")).value
         && part.2 == GetInput(lines[next - 1], Some("50")).value
       else
         && start + 1 <= next
         && FirstAt(Replies(lines), start, next - 1, No)
         && part.1 == "" && part.2 == ""
  }

  /** The years answers as lines: accepted, the gate is line `next - 2`
      and the years text is read from the line after it; declined, the
      gate is line `next - 1` and the text stays "". */
  predicate YearsAnswers(lines: seq<string>, start: nat, part: (bool, Option<string>), next: nat) {
    && next <= |lines|
    && if part.0 then
         && start + 2 <= next
         && FirstAt(Replies(lines), start, next - 2, Yes)
         && part.1 == GetInput(lines[next - 1], None)
       else
         && start + 1 <= next
         && FirstAt(Replies(lines), start, next - 1, No)
         && part.1 == Some("")
  }

  /** The three padding gates before the custom-symbols line `next - 1`:
      line `g` accepts paddings, line `b` is the first yes-or-no line
      after it and answers `before`, and line `next - 2` is the first one
      after that and answers `after`. */
  predicate PaddingGates(lines: seq<string>, start: nat, g: nat, b: nat, next: nat, before: bool, after: bool) {
    && start <= g < b < next - 2
    && FirstAt(Replies(lines), start, g, Yes)
    && FirstAt(Replies(lines), g + 1, b, Answer(before))
    && FirstAt(Replies(lines), b + 1, next - 2, Answer(after))
  }

  /** The padding answers as lines: accepted, the three gates come in
      order and the custom symbols are read from the line after the last
      one, line `next - 1`; declined, the gate is line `next - 1` and
      nothing is set. */
  predicate PaddingsAnswers(lines: seq<string>, start: nat, part: (bool, bool, bool, string), next: nat) {
    && next <= |lines|
    && if part.0 then
         && start + 4 <= next
         && (exists g: nat, b: nat :: g < b < next && PaddingGates(lines, start, g, b, next, part.1, part.2))
         && part.3 == GetInput(lines[next - 1], Some("")).value
       else
         && start + 1 <= next
         && FirstAt(Replies(lines), start, next - 1, No)
         && !part.1 && !part.2 && part.3 == ""
  }

  /** The numbering questions settle on `part` with the cursor at `next`
      exactly when the lines say so. */
  lemma NumberingLines(lines: seq<string>, start: nat, part: (bool, string, string), next: nat)
    requires start <= |lines|
    ensures NumberingFrom(lines, start) == Some((part, next)) <==> NumberingAnswers(lines, start, part, next)
  {
    if NumberingFrom(lines, start) == Some((part, next)) {
      NumberingRead(lines, start);
    }
    if NumberingAnswers(lines, start, part, next) {
      NumberingAnswered(lines, start, part, next);
    }
  }

  lemma NumberingRead(lines: seq<string>, start: nat)
    requires start <= |lines| && NumberingFrom(lines, start).Some?
    ensures NumberingAnswers(lines, start, NumberingFrom(lines, start).value.0, NumberingFrom(lines, start).value.1)
  {
    NextReplyFound(lines, start);
  }

  lemma NumberingAnswered(lines: seq<string>, start: nat, part: (bool, string, string), next: nat)
    requires start <= |lines| && NumberingAnswers(lines, start, part, next)
    ensures NumberingFrom(lines, start) == Some((part, next))
  {
    if part.0 {
      NextReplyAt(lines, start, next - 3, Yes);
    } else {
      NextReplyAt(lines, start, next - 1, No);
    }
  }

  /** The years questions settle on `part` with the cursor at `next`
      exactly when the lines say so. */
  lemma YearsLines(lines: seq<string>, start: nat, part: (bool, Option<string>), next: nat)
    requires start <= |lines|
    ensures YearsFrom(lines, start) == Some((part, next)) <==> YearsAnswers(lines, start, part, next)
  {
    if YearsFrom(lines, start) == Some((part, next)) {
      YearsRead(lines, start);
    }
    if YearsAnswers(lines, start, part, next) {
      YearsAnswered(lines, start, part, next);
    }
  }

  lemma YearsRead(lines: seq<string>, start: nat)
    requires start <= |lines| && YearsFrom(lines, start).Some?
    ensures YearsAnswers(lines, start, YearsFrom(lines, start).value.0, YearsFrom(lines, start).value.1)
  {
    NextReplyFound(lines, start);
  }

  lemma YearsAnswered(lines: seq<string>, start: nat, part: (bool, Option<string>), next: nat)
    requires start <= |lines| && YearsAnswers(lines, start, part, next)
    ensures YearsFrom(lines, start) == Some((part, next))
  {
    if part.0 {
      NextReplyAt(lines, start, next - 2, Yes);
    } else {
      NextReplyAt(lines, start, next - 1, No);
    }
  }

  /** The padding questions settle on `part` with the cursor at `next`
      exactly when the lines say so. */
  lemma PaddingsLines(lines: seq<string>, start: nat, part: (bool, bool, bool, string), next: nat)
    requires start <= |lines|
    ensures PaddingsFrom(lines, start) == Some((part, next)) <==> PaddingsAnswers(lines, start, part, next)
  {
    if PaddingsFrom(lines, start) == Some((part, next)) {
      if part.0 {
        PaddingsGatesFound(lines, start, part, next);
      } else {
        NextReplyFound(lines, start);
      }
    }
    if PaddingsAnswers(lines, start, part, next) {
      if part.0 {
        var g: nat, b: nat :| g < b < next && PaddingGates(lines, start, g, b, next, part.1, part.2);
        PaddingsFromGates(lines, start, g, b, part, next);
      } else {
        NextReplyAt(lines, start, next - 1, No);
      }
    }
  }

  lemma PaddingsGatesFound(lines: seq<string>, start: nat, part: (bool, bool, bool, string), next: nat)
    requires start <= |lines| && part.0
    requires PaddingsFrom(lines, start) == Some((part, next))
    ensures PaddingsAnswers(lines, start, part, next)
  {
    var at := NextReply(lines, start).value.1;
    var at' := NextReply(lines, at).value.1;
    assert FirstAt(Replies(lines), start, at - 1, Yes) by {
      NextReplyFound(lines, start);
    }
    assert FirstAt(Replies(lines), at, at' - 1, Answer(part.1)) by {
      NextReplyFound(lines, at);
    }
    assert FirstAt(Replies(lines), at', next - 2, Answer(part.2)) by {
      NextReplyFound(lines, at');
    }
    assert PaddingGates(lines, start, at - 1, at' - 1, next, part.1, part.2);
  }

  lemma PaddingsFromGates(lines: seq<string>, start: nat, g: nat, b: nat, part: (bool, bool, bool, string), next: nat)
    requires start <= |lines| && part.0 && next <= |lines|
    requires PaddingGates(lines, start, g, b, next, part.1, part.2)
    requires part.3 == GetInput(lines[next - 1], Some("")).value
    ensures PaddingsFrom(lines, start) == Some((part, next))
  {
    NextReplyAt(lines, start, g, Yes);
    NextReplyAt(lines, g + 1, b, Answer(part.1));
    NextReplyAt(lines, b + 1, next - 2, Answer(part.2));
    PaddingsFromReplies(lines, start, g + 1, b + 1, part, next);
  }

  lemma PaddingsFromReplies(lines: seq<string>, start: nat, at: nat, at': nat, part: (bool, bool, bool, string), next: nat)
    requires start <= at <= at' < next <= |lines| && part.0
    requires NextReply(lines, start) == Some((true, at))
    requires NextReply(lines, at) == Some((part.1, at'))
    requires NextReply(lines, at') == Some((part.2, next - 1))
    requires part.3 == GetInput(lines[next - 1], Some("")).value
    ensures PaddingsFrom(lines, start) == Some((part, next))
  {
  }

  /** The numbering questions: whether to append numbers, then, when the
      operator agrees, the level and the limit. */
  method AskNumbering(lines: seq<string>, start: nat)
    returns (part: Option<(bool, string, string)>, next: nat)
    requires start <= |lines|
    ensures start <= next <= |lines|
    ensures part.None? ==> next == |lines|
    ensures NumberingFrom(lines, start) == if part.Some? then Some((part.value, next)) else None
  {
    var answer;
    answer, next := AskYesNo(lines, start);
    if answer.None? {
      return None, next;
    }
    if !answer.value {
      return Some((false, "", "")), next;
    }
    if next + 2 > |lines| {
      return None, |lines|;
    }
    var level := GetInput(lines[next], Some("1"));
    var limit := GetInput(lines[next + 1], Some("50"));
    return Some((true, level.value, limit.value)), next + 2;
  }

  /** The years questions: whether to append years, then, when the
      operator agrees, the years text. */
  method AskYears(lines: seq<string>, start: nat)
    returns (part: Option<(bool, Option<string>)>, next: nat)
    requires start <= |lines|
    ensures start <= next <= |lines|
    ensures part.None? ==> next == |lines|
    ensures YearsFrom(lines, start) == if part.Some? then Some((part.value, next)) else None
  {
    var answer;
    answer, next := AskYesNo(lines, start);
    if answer.None? {
      return None, next;
    }
    if !answer.value {
      return Some((false, Some(""))), next;
    }
    if next == |lines| {
      return None, next;
    }
    var spec := GetInput(lines[next], None);
    return Some((true, spec)), next + 1;
  }

  /** The padding questions: whether to add symbols, then, when the
      operator agrees, the two switches and the custom symbols. */
  method AskPaddings(lines: seq<string>, start: nat)
    returns (part: Option<(bool, bool, bool, string)>, next: nat)
    requires start <= |lines|
    ensures start <= next <= |lines|
    ensures part.None? ==> next == |lines|
    ensures PaddingsFrom(lines, start) == if part.Some? then Some((part.value, next)) else None
  {
    var answer;
    answer, next := AskYesNo(lines, start);
    if answer.None? {
      return None, next;
    }
    if !answer.value {
      return Some((false, false, false, "")), next;
    }
    var before, after;
    before, next := AskYesNo(lines, next);
    if before.None? {
      return None, next;
    }
    after, next := AskYesNo(lines, next);
    if after.None? || next == |lines| {
      return None, |lines|;
    }
    var custom := GetInput(lines[next], Some(""));
    return Some((true, before.value, after.value, custom.value)), next + 1;
  }

  /** `main` read over the answer lines in its own order: the keywords up
      to the first blank line, then the numbering, years and padding
      questions, the output file (default "output.txt") and the execution
      question. */
  function Session(lines: seq<string>): Outcome {
    match KeywordsFrom(lines, 0)
    case None => InputEnded
    case Some(keywords) =>
      if keywords == [] then NoKeywords
      else SessionFrom(lines, |keywords| + 1, keywords)
  }

  /** The session once the keywords are in and the cursor is at `start`:
      the numbering questions come first. */
  function SessionFrom(lines: seq<string>, start: nat, keywords: seq<string>): Outcome
    requires start <= |lines|
  {
    match NumberingFrom(lines, start)
    case None => InputEnded
    case Some((numbering, at)) => AfterNumbering(lines, at, keywords, numbering)
  }

  /** The session after the numbering questions: the years questions. */
  function AfterNumbering(lines: seq<string>, start: nat, keywords: seq<string>,
                          numbering: (bool, string, string)): Outcome
    requires start <= |lines|
  {
    match YearsFrom(lines, start)
    case None => InputEnded
    case Some((years, at)) => AfterYears(lines, at, keywords, numbering, years)
  }

  /** The session after the years questions: the padding questions. */
  function AfterYears(lines: seq<string>, start: nat, keywords: seq<string>,
                      numbering: (bool, string, string), years: (bool, Option<string>)): Outcome
    requires start <= |lines|
  {
    match PaddingsFrom(lines, start)
    case None => InputEnded
    case Some((paddings, at)) => AfterPaddings(lines, at, keywords, numbering, years, paddings)
  }

  /** The session after the padding questions: the output file, the
      assembled command and the execution question. */
  function AfterPaddings(lines: seq<string>, start: nat, keywords: seq<string>,
                         numbering: (bool, string, string), years: (bool, Option<string>),
                         paddings: (bool, bool, bool, string)): Outcome
    requires start <= |lines|
  {
    if start == |lines| then InputEnded
    else
      var cfg := Config(keywords, numbering.0, numbering.1, numbering.2, years.0, years.1,
                        paddings.0, paddings.1, paddings.2, paddings.3,
                        GetInput(lines[start], Some("output.txt")).value);
      match NextReply(lines, start + 1)
      case None => InputEnded
      case Some((execute, _)) => Generated(cfg, CommandLine(cfg), execute)
  }

  /** The keywords are the stripped answers before the first blank line. */
  predicate LeadingKeywords(lines: seq<string>, keywords: seq<string>) {
    && |keywords| < |lines|
    && AllSpace(lines[|keywords|])
    && forall i :: 0 <= i < |keywords| ==> keywords[i] == Strip(lines[i])
  }

  /** The session ends for want of keywords exactly when the first answer
      is blank; a generated session's answers satisfy `Collected`, its
      command is `CommandLine` of them, and its keywords are the stripped
      answers before the first blank line. */
  lemma SessionKeywords(lines: seq<string>)
    ensures Session(lines) == NoKeywords <==> |lines| > 0 && AllSpace(lines[0])
    ensures Session(lines).Generated? ==>
              && Collected(Session(lines).cfg)
              && Session(lines).command == CommandLine(Session(lines).cfg)
              && LeadingKeywords(lines, Session(lines).cfg.keywords)
  {
    KeywordsFromLines(lines, 0);
    if KeywordsFrom(lines, 0).None? {
      assert |lines| > 0 ==> !AllSpace(lines[0]);
    } else {
      var keywords := KeywordsFrom(lines, 0).value;
      if keywords != [] {
        assert Strip(lines[0]) == keywords[0] != "";
        assert LeadingKeywords(lines, keywords) by {
          assert forall i :: 0 <= i < |keywords| ==> keywords[i] == Strip(lines[0 + i]);
        }
        SessionFromGenerated(lines, |keywords| + 1, keywords);
      }
    }
  }

  /** `main` over the answer lines, one line read per prompt. */
  method RunHelper(lines: seq<string>) returns (outcome: Outcome)
    ensures outcome == Session(lines)
    ensures outcome == NoKeywords <==> |lines| > 0 && AllSpace(lines[0])
    ensures outcome.Generated? ==>
              && Collected(outcome.cfg)
              && outcome.command == CommandLine(outcome.cfg)
              && LeadingKeywords(lines, outcome.cfg.keywords)
  {
    var collected, at := CollectKeywords(lines, 0);
    if collected.None? {
      outcome := InputEnded;
    } else if collected.value == [] {
      outcome := NoKeywords;
    } else {
      var keywords := collected.value;
      assert forall i :: 0 <= i < |keywords| ==> keywords[i] != "" && Trimmed(keywords[i]) by {
        KeywordsFromLines(lines, 0);
      }
      var configured := Configure(lines, at, keywords);
      assert configured == Session(lines) by {
        KeywordsStart(lines, keywords);
      }
      outcome := configured;
    }
    assert outcome == Session(lines);
    assert outcome == NoKeywords <==> |lines| > 0 && AllSpace(lines[0]) by {
      SessionKeywords(lines);
    }
    assert outcome.Generated? ==>
             && Collected(outcome.cfg)
             && outcome.command == CommandLine(outcome.cfg)
             && LeadingKeywords(lines, outcome.cfg.keywords) by {
      SessionKeywords(lines);
    }
  }

  /** A session that gets past the keywords never ends for want of them;
      when it generates a command, it keeps the keywords, its answers
      satisfy `Collected`, and the command is `CommandLine` of them. */
  lemma SessionFromGenerated(lines: seq<string>, start: nat, keywords: seq<string>)
    requires start <= |lines|
    requires |keywords| > 0
    requires forall i :: 0 <= i < |keywords| ==> keywords[i] != "" && Trimmed(keywords[i])
    ensures SessionFrom(lines, start, keywords) != NoKeywords
    ensures SessionFrom(lines, start, keywords).Generated? ==>
              && SessionFrom(lines, start, keywords).cfg.keywords == keywords
              && Collected(SessionFrom(lines, start, keywords).cfg)
              && SessionFrom(lines, start, keywords).command == CommandLine(SessionFrom(lines, start, keywords).cfg)
  {
    if SessionFrom(lines, start, keywords).Generated? {
      var (numbering, at) := NumberingFrom(lines, start).value;
      var (years, at') := YearsFrom(lines, at).value;
      var (paddings, at'') := PaddingsFrom(lines, at').value;
      assert SessionFrom(lines, start, keywords) == AfterPaddings(lines, at'', keywords, numbering, years, paddings);
      NumberingLines(lines, start, numbering, at);
      YearsLines(lines, at, years, at');
      PaddingsLines(lines, at', paddings, at'');
    }
  }

  /** The rest of `main` once the keywords are in: the gated groups, the
      output file, the assembled command and the execution question. */
  method Configure(lines: seq<string>, start: nat, keywords: seq<string>) returns (outcome: Outcome)
    requires start <= |lines|
    requires |keywords| > 0
    requires forall i :: 0 <= i < |keywords| ==> keywords[i] != "" && Trimmed(keywords[i])
    ensures outcome == SessionFrom(lines, start, keywords)
    ensures outcome != NoKeywords
    ensures outcome.Generated? ==>
              && outcome.cfg.keywords == keywords
              && Collected(outcome.cfg)
              && outcome.command == CommandLine(outcome.cfg)
  {
    SessionFromGenerated(lines, start, keywords);
    var at := start;
    var numbering, years, paddings;
    numbering, at := AskNumbering(lines, at);
    if numbering.None? {
      return InputEnded;
    }
    assert SessionFrom(lines, start, keywords) == AfterNumbering(lines, at, keywords, numbering.value);
    var atYears := at;
    years, at := AskYears(lines, at);
    if years.None? {
      return InputEnded;
    }
    assert AfterNumbering(lines, atYears, keywords, numbering.value)
        == AfterYears(lines, at, keywords, numbering.value, years.value);
    var atPaddings := at;
    paddings, at := AskPaddings(lines, at);
    if paddings.None? {
      return InputEnded;
    }
    assert AfterYears(lines, atPaddings, keywords, numbering.value, years.value)
        == AfterPaddings(lines, at, keywords, numbering.value, years.value, paddings.value);
    outcome := Conclude(lines, at, keywords, numbering.value, years.value, paddings.value);
  }

  /** The end of `main`: the output file, the assembled command and the
      execution question. */
  method Conclude(lines: seq<string>, start: nat, keywords: seq<string>,
                  numbering: (bool, string, string), years: (bool, Option<string>),
                  paddings: (bool, bool, bool, string)) returns (outcome: Outcome)
    requires start <= |lines|
    ensures outcome == AfterPaddings(lines, start, keywords, numbering, years, paddings)
  {
    if start == |lines| {
      return InputEnded;
    }
    var outputFile := GetInput(lines[start], Some("output.txt"));
    var (numbered, level, limit) := numbering;
    var (dated, spec) := years;
    var (padded, before, after, custom) := paddings;
    var cfg := Config(keywords, numbered, level, limit, dated, spec,
                      padded, before, after, custom, outputFile.value);
    var command := BuildCommand(cfg);
    var execute, _ := AskYesNo(lines, start + 1);
    if execute.None? {
      return InputEnded;
    }
    return Generated(cfg, command, execute.value);
  }

  /** Answers after a settled group do not change it. */
  lemma NumberingStable(lines: seq<string>, more: seq<string>, start: nat)
    requires start <= |lines| && NumberingFrom(lines, start).Some?
    ensures NumberingFrom(lines + more, start) == NumberingFrom(lines, start)
  {
    NextReplyStable(lines, more, start);
    var (numbered, at) := NextReply(lines, start).value;
    if numbered {
      assert (lines + more)[at] == lines[at] && (lines + more)[at + 1] == lines[at + 1];
    }
  }

  lemma YearsStable(lines: seq<string>, more: seq<string>, start: nat)
    requires start <= |lines| && YearsFrom(lines, start).Some?
    ensures YearsFrom(lines + more, start) == YearsFrom(lines, start)
  {
    NextReplyStable(lines, more, start);
    var (dated, at) := NextReply(lines, start).value;
    if dated {
      assert (lines + more)[at] == lines[at];
    }
  }

  lemma PaddingsStable(lines: seq<string>, more: seq<string>, start: nat)
    requires start <= |lines| && PaddingsFrom(lines, start).Some?
    ensures PaddingsFrom(lines + more, start) == PaddingsFrom(lines, start)
  {
    NextReplyStable(lines, more, start);
    var (padded, at) := NextReply(lines, start).value;
    if padded {
      NextReplyStable(lines, more, at);
      var (_, at') := NextReply(lines, at).value;
      NextReplyStable(lines, more, at');
      var (_, at'') := NextReply(lines, at').value;
      assert (lines + more)[at''] == lines[at''];
    }
  }

  lemma AfterPaddingsStable(lines: seq<string>, more: seq<string>, start: nat, keywords: seq<string>,
                            numbering: (bool, string, string), years: (bool, Option<string>),
                            paddings: (bool, bool, bool, string))
    requires start <= |lines|
    requires AfterPaddings(lines, start, keywords, numbering, years, paddings) != InputEnded
    ensures AfterPaddings(lines + more, start, keywords, numbering, years, paddings)
         == AfterPaddings(lines, start, keywords, numbering, years, paddings)
  {
    assert (lines + more)[start] == lines[start];
    NextReplyStable(lines, more, start + 1);
  }

  lemma AfterYearsStable(lines: seq<string>, more: seq<string>, start: nat, keywords: seq<string>,
                         numbering: (bool, string, string), years: (bool, Option<string>))
    requires start <= |lines|
    requires AfterYears(lines, start, keywords, numbering, years) != InputEnded
    ensures AfterYears(lines + more, start, keywords, numbering, years)
         == AfterYears(lines, start, keywords, numbering, years)
  {
    PaddingsStable(lines, more, start);
    var (paddings, at) := PaddingsFrom(lines, start).value;
    AfterPaddingsStable(lines, more, at, keywords, numbering, years, paddings);
  }

  lemma AfterNumberingStable(lines: seq<string>, more: seq<string>, start: nat, keywords: seq<string>,
                             numbering: (bool, string, string))
    requires start <= |lines|
    requires AfterNumbering(lines, start, keywords, numbering) != InputEnded
    ensures AfterNumbering(lines + more, start, keywords, numbering)
         == AfterNumbering(lines, start, keywords, numbering)
  {
    YearsStable(lines, more, start);
    var (years, at) := YearsFrom(lines, start).value;
    AfterYearsStable(lines, more, at, keywords, numbering, years);
  }

  lemma SessionFromStable(lines: seq<string>, more: seq<string>, start: nat, keywords: seq<string>)
    requires start <= |lines|
    requires SessionFrom(lines, start, keywords) != InputEnded
    ensures SessionFrom(lines + more, start, keywords) == SessionFrom(lines, start, keywords)
  {
    NumberingStable(lines, more, start);
    var (numbering, at) := NumberingFrom(lines, start).value;
    AfterNumberingStable(lines, more, at, keywords, numbering);
  }

  /** A session that ends without running out of answers ends the same
      way whatever answers follow: the outcome depends only on the lines
      `main` read. */
  /** With keywords given, the session goes on from the line after the
      blank one that ended them. */
  lemma KeywordsStart(lines: seq<string>, keywords: seq<string>)
    requires KeywordsFrom(lines, 0) == Some(keywords) && keywords != []
    ensures Session(lines) == SessionFrom(lines, |keywords| + 1, keywords)
  {
  }

  lemma SessionStable(lines: seq<string>, more: seq<string>)
    requires Session(lines) != InputEnded
    ensures Session(lines + more) == Session(lines)
  {
    KeywordsStable(lines, more, 0);
    var keywords := KeywordsFrom(lines, 0).value;
    if keywords != [] {
      KeywordsStart(lines, keywords);
      KeywordsStart(lines + more, keywords);
      SessionFromStable(lines, more, |keywords| + 1, keywords);
    }
  }

  /** Answers that finish any session: a blank line, which ends a keyword
      list still open, then enough no-answers to decline every remaining
      gate, name the output file and decline running the command. */
  const Filler: seq<string> := ["", "n", "n", "n", "n", "n", "n", "n"]

  /** After the filler, `ask_yes_no` always settles; a yes comes only from
      the operator's own lines, and the cursor moves at most two lines into
      the filler, or one line past where it started. */
  lemma NextReplyFilled(lines: seq<string>, start: nat)
    requires start < |lines| + |Filler|
    ensures NextReply(lines + Filler, start).Some?
    ensures NextReply(lines + Filler, start).value.1 <= |lines| + 2
         || NextReply(lines + Filler, start).value.1 == start + 1
    ensures NextReply(lines + Filler, start).value.0 ==> NextReply(lines + Filler, start).value.1 <= |lines|
  {
    var filled := lines + Filler;
    assert filled[|lines|] == "" && filled[|lines| + 1] == "n";
    if start < |lines| {
      if NextReply(lines, start).Some? {
        NextReplyStable(lines, Filler, start);
      } else {
        NextReplyResumes(lines, Filler, start);
        NextReplyBlankNo(filled, |lines|);
      }
    } else if start == |lines| {
      NextReplyBlankNo(filled, start);
    } else {
      assert filled[start] == Filler[start - |lines|] == "n";
      NextReplyNo(filled, start);
    }
  }

  lemma NumberingFilled(lines: seq<string>, start: nat)
    requires start <= |lines| + 6
    ensures NumberingFrom(lines + Filler, start).Some?
    ensures NumberingFrom(lines + Filler, start).value.1 <= |lines| + 4
         || NumberingFrom(lines + Filler, start).value.1 == start + 1
  {
    NextReplyFilled(lines, start);
  }

  lemma YearsFilled(lines: seq<string>, start: nat)
    requires start <= |lines| + 6
    ensures YearsFrom(lines + Filler, start).Some?
    ensures YearsFrom(lines + Filler, start).value.1 <= |lines| + 4
         || YearsFrom(lines + Filler, start).value.1 == start + 1
  {
    NextReplyFilled(lines, start);
  }

  lemma PaddingsFilled(lines: seq<string>, start: nat)
    requires start <= |lines| + 6
    ensures PaddingsFrom(lines + Filler, start).Some?
    ensures PaddingsFrom(lines + Filler, start).value.1 <= |lines| + 4
         || PaddingsFrom(lines + Filler, start).value.1 == start + 1
  {
    NextReplyFilled(lines, start);
    var (padded, at) := NextReply(lines + Filler, start).value;
    if padded {
      NextReplyFilled(lines, at);
      var (_, at') := NextReply(lines + Filler, at).value;
      NextReplyFilled(lines, at');
    }
  }

  /** Once the keywords are in, a session over answers followed by the
      filler always reaches a command. */
  lemma SessionFromFilled(lines: seq<string>, start: nat, keywords: seq<string>)
    requires start <= |lines| + 1
    ensures SessionFrom(lines + Filler, start, keywords).Generated?
  {
    var filled := lines + Filler;
    NumberingFilled(lines, start);
    var (numbering, at) := NumberingFrom(filled, start).value;
    YearsFilled(lines, at);
    var (years, at') := YearsFrom(filled, at).value;
    PaddingsFilled(lines, at');
    var (paddings, at'') := PaddingsFrom(filled, at').value;
    NextReplyFilled(lines, at'' + 1);
    assert SessionFrom(filled, start, keywords) == AfterPaddings(filled, at'', keywords, numbering, years, paddings);
  }

  /** A session ends with `InputEnded` only when the answers ran out:
      whatever the answers, followed by the filler they end otherwise. */
  lemma SessionFilled(lines: seq<string>)
    ensures Session(lines + Filler) != InputEnded
  {
    var filled := lines + Filler;
    assert KeywordsFrom(filled, 0).Some? && |KeywordsFrom(filled, 0).value| <= |lines| by {
      if KeywordsFrom(lines, 0).None? {
        KeywordsEnd(lines, Filler, 0);
      } else {
        KeywordsStable(lines, Filler, 0);
      }
    }
    var keywords := KeywordsFrom(filled, 0).value;
    if keywords != [] {
      SessionFromFilled(lines, |keywords| + 1, keywords);
      KeywordsStart(filled, keywords);
    }
  }

  /** `InputEnded` means exactly that the outcome still depends on
      answers the operator has not given: more answers change it, and no
      other outcome is ever changed by them. */
  lemma InputEndedMeansMoreNeeded(lines: seq<string>)
    ensures Session(lines) == InputEnded <==> Session(lines + Filler) != Session(lines)
  {
    SessionFilled(lines);
    if Session(lines) != InputEnded {
      SessionStable(lines, Filler);
    }
  }
}
