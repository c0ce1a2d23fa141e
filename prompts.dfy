/** The operator-facing questions of psudohash_helper.py, with the
    terminal replaced by a finite sequence of answer lines and a cursor
    into it. Running past the last line is what Python reports as an
    end-of-file error on `input()`. */
module Prompts {
  import opened Wrappers
  import opened Text

  /** `get_input`: the answer line with surrounding whitespace removed,
      or `default` (absent, empty or a value) when the line is blank. */
  function GetInput(line: string, default: Option<string>): (r: Option<string>)
    ensures AllSpace(line) ==> r == default
    ensures !AllSpace(line) ==> r.Some? && r.value != "" && Trimmed(r.value) && r.value == Strip(line)
    ensures default.Some? ==> r.Some?
  {
    var answer := Strip(line);
    if answer != "" then Some(answer) else default
  }

  /** How `ask_yes_no` reads one answer line. */
  datatype Reply = Yes | No | Retry

  function Classify(line: string): Reply {
    Reading(Strip(Lower(line)))
  }

  /** The reply a lower-cased, stripped answer stands for. */
  function Reading(choice: string): Reply {
    if choice == "y" || choice == "yes" then Yes
    else if choice == "n" || choice == "no" then No
    else Retry
  }

  /** `x` is the lower-case `word` with any of its letters upper-cased. */
  predicate CaseOf(x: string, word: string) {
    && |x| == |word|
    && forall i :: 0 <= i < |x| ==> x[i] == word[i] || x[i] as int == word[i] as int - 32
  }

  lemma LowerCharIs(c: char, d: char)
    requires 'a' <= d <= 'z'
    ensures LowerChar(c) == d <==> c == d || c as int == d as int - 32
  {}

  /** The texts that lower-case to a lower-case word are exactly its
      letter-case variants. */
  lemma LowerIsCase(x: string, word: string)
    requires forall i :: 0 <= i < |word| ==> 'a' <= word[i] <= 'z'
    ensures Lower(x) == word <==> CaseOf(x, word)
  {
    LowerAt(x);
    if |x| == |word| {
      forall i | 0 <= i < |x|
        ensures Lower(x)[i] == word[i] <==> x[i] == word[i] || x[i] as int == word[i] as int - 32
      {
        LowerCharIs(x[i], word[i]);
      }
      if CaseOf(x, word) {
        assert Lower(x) == word;
      }
    }
  }

  /** `ask_yes_no` accepts exactly the stripped answers `y`/`yes` and
      `n`/`no` in any letter case; everything else asks again. */
  lemma ClassifyForms(line: string)
    ensures Classify(line) == Yes <==> CaseOf(Strip(line), "y") || CaseOf(Strip(line), "yes")
    ensures Classify(line) == No <==> CaseOf(Strip(line), "n") || CaseOf(Strip(line), "no")
    ensures Classify(line) == Retry <==>
              !CaseOf(Strip(line), "y") && !CaseOf(Strip(line), "yes")
              && !CaseOf(Strip(line), "n") && !CaseOf(Strip(line), "no")
  {
    var choice := Strip(line);
    StripLowerCommute(line);
    LowerIsCase(choice, "y");
    LowerIsCase(choice, "yes");
    LowerIsCase(choice, "n");
    LowerIsCase(choice, "no");
  }

  /** Whitespace around an answer never changes how it is classified. */
  lemma ClassifyPadded(pre: string, answer: string, post: string)
    requires AllSpace(pre) && AllSpace(post)
    ensures Classify(pre + answer + post) == Classify(answer)
  {
    var line := pre + answer + post;
    LowerConcat(pre, answer);
    LowerConcat(pre + answer, post);
    LowerKeepsSpace(pre);
    LowerKeepsSpace(post);
    StripAbsorbsPadding(Lower(pre), Lower(answer), Lower(post));
  }

  /** How each answer line reads to `ask_yes_no`, in order. */
  function Replies(lines: seq<string>): (r: seq<Reply>)
    ensures |r| == |lines|
  {
    if lines == [] then [] else [Classify(lines[0])] + Replies(lines[1..])
  }

  /** Entry `i` of `Replies` is how line `i` is classified. */
  lemma {:induction false} RepliesAt(lines: seq<string>, i: nat)
    requires i < |lines|
    ensures Replies(lines)[i] == Classify(lines[i])
  {
    if i > 0 {
      RepliesAt(lines[1..], i - 1);
    }
  }

  /** The reply a yes/no answer stands for. */
  function Answer(yes: bool): Reply {
    if yes then Yes else No
  }

  /** Every reply from `start` on is a retry. */
  predicate AllRetry(replies: seq<Reply>, start: nat) {
    forall i :: start <= i < |replies| ==> replies[i] == Retry
  }

  /** Reply `g` is the first one from `start` that is not a retry, and it
      is `reply`. */
  predicate FirstAt(replies: seq<Reply>, start: nat, g: nat, reply: Reply) {
    && start <= g < |replies|
    && (forall i :: start <= i < g ==> replies[i] == Retry)
    && replies[g] == reply
  }

  /** Over the lines, `FirstAt` says that line `g` is the first line from
      `start` that is neither a yes nor a no, and that it reads as
      `reply`. */
  lemma FirstAtLines(lines: seq<string>, start: nat, g: nat, reply: Reply)
    ensures FirstAt(Replies(lines), start, g, reply) <==>
              && start <= g < |lines|
              && (forall i :: start <= i < g ==> Classify(lines[i]) == Retry)
              && Classify(lines[g]) == reply
  {
    if start <= g < |lines| {
      RepliesAt(lines, g);
      forall i | start <= i < g
        ensures Replies(lines)[i] == Classify(lines[i])
      {
        RepliesAt(lines, i);
      }
    }
  }

  /** Over the lines, `AllRetry` says that no line from `start` on is a
      yes or a no. */
  lemma AllRetryLines(lines: seq<string>, start: nat)
    ensures AllRetry(Replies(lines), start) <==>
              forall i :: start <= i < |lines| ==> Classify(lines[i]) == Retry
  {
    forall i | start <= i < |lines|
      ensures Replies(lines)[i] == Classify(lines[i])
    {
      RepliesAt(lines, i);
    }
  }

  /** The answer `ask_yes_no` settles on when it starts reading at
      `start`: the first yes or no, with the position just past its line;
      nothing when the replies run out first. */
  function FirstAnswer(replies: seq<Reply>, start: nat): (r: Option<(bool, nat)>)
    requires start <= |replies|
    ensures r.Some? ==> start < r.value.1 <= |replies|
    decreases |replies| - start
  {
    if start == |replies| then None
    else match replies[start]
      case Yes => Some((true, start + 1))
      case No => Some((false, start + 1))
      case Retry => FirstAnswer(replies, start + 1)
  }

  /** The settled answer is that of the first reply that is not a retry. */
  lemma {:induction false} FirstAnswerFound(replies: seq<Reply>, start: nat)
    requires start <= |replies| && FirstAnswer(replies, start).Some?
    ensures FirstAt(replies, start, FirstAnswer(replies, start).value.1 - 1,
                    Answer(FirstAnswer(replies, start).value.0))
    decreases |replies| - start
  {
    if replies[start] == Retry {
      FirstAnswerFound(replies, start + 1);
    }
  }

  /** The first reply that is not a retry is where the answer settles. */
  lemma {:induction false} FirstAnswerAt(replies: seq<Reply>, start: nat, g: nat, reply: Reply)
    requires FirstAt(replies, start, g, reply) && reply != Retry
    ensures FirstAnswer(replies, start) == Some((reply == Yes, g + 1))
    decreases g - start
  {
    if start < g {
      FirstAnswerAt(replies, start + 1, g, reply);
    }
  }

  /** There is no answer exactly when every reply from `start` on is a
      retry. */
  lemma {:induction false} FirstAnswerNone(replies: seq<Reply>, start: nat)
    requires start <= |replies|
    ensures FirstAnswer(replies, start).None? <==> AllRetry(replies, start)
    decreases |replies| - start
  {
    if start < |replies| && replies[start] == Retry {
      FirstAnswerNone(replies, start + 1);
    }
  }

  /** The answer settles on `answer` with the cursor at `next` exactly
      when reply `next - 1` is the first one from `start` that is not a
      retry, and it is that answer. */
  lemma FirstAnswerIs(replies: seq<Reply>, start: nat, answer: bool, next: nat)
    requires start <= |replies|
    ensures FirstAnswer(replies, start) == Some((answer, next)) <==>
              1 <= next && FirstAt(replies, start, next - 1, Answer(answer))
  {
    if FirstAnswer(replies, start) == Some((answer, next)) {
      FirstAnswerFound(replies, start);
    }
    if 1 <= next && FirstAt(replies, start, next - 1, Answer(answer)) {
      FirstAnswerAt(replies, start, next - 1, Answer(answer));
    }
  }

  /** `ask_yes_no` over the answer lines. */
  function NextReply(lines: seq<string>, start: nat): (r: Option<(bool, nat)>)
    requires start <= |lines|
    ensures r.Some? ==> start < r.value.1 <= |lines|
  {
    FirstAnswer(Replies(lines), start)
  }

  /** `ask_yes_no` settles on `answer` with the cursor at `next` exactly
      when line `next - 1` is the first yes-or-no line from `start` and
      reads as that answer (`FirstAtLines` spells this out per line). */
  lemma NextReplyIs(lines: seq<string>, start: nat, answer: bool, next: nat)
    requires start <= |lines|
    ensures NextReply(lines, start) == Some((answer, next)) <==>
              1 <= next && FirstAt(Replies(lines), start, next - 1, Answer(answer))
  {
    FirstAnswerIs(Replies(lines), start, answer, next);
  }

  /** Where `ask_yes_no` stops is the first yes-or-no line. */
  lemma NextReplyFound(lines: seq<string>, start: nat)
    requires start <= |lines| && NextReply(lines, start).Some?
    ensures FirstAt(Replies(lines), start, NextReply(lines, start).value.1 - 1,
                    Answer(NextReply(lines, start).value.0))
  {
    FirstAnswerFound(Replies(lines), start);
  }

  /** The first yes-or-no line is where `ask_yes_no` stops. */
  lemma NextReplyAt(lines: seq<string>, start: nat, g: nat, reply: Reply)
    requires FirstAt(Replies(lines), start, g, reply) && reply != Retry
    ensures NextReply(lines, start) == Some((reply == Yes, g + 1))
  {
    FirstAnswerAt(Replies(lines), start, g, reply);
  }

  /** `ask_yes_no` runs out of lines exactly when no line from `start` on
      is a yes or a no. */
  lemma NextReplyNone(lines: seq<string>, start: nat)
    requires start <= |lines|
    ensures NextReply(lines, start).None? <==>
              forall i :: start <= i < |lines| ==> Classify(lines[i]) == Retry
  {
    FirstAnswerNone(Replies(lines), start);
    AllRetryLines(lines, start);
  }

  /** A settled answer does not depend on the replies after it. */
  lemma {:induction false} FirstAnswerStable(replies: seq<Reply>, more: seq<Reply>, start: nat)
    requires start <= |replies| && FirstAnswer(replies, start).Some?
    ensures FirstAnswer(replies + more, start) == FirstAnswer(replies, start)
    decreases |replies| - start
  {
    assert (replies + more)[start] == replies[start];
    if replies[start] == Retry {
      FirstAnswerStable(replies, more, start + 1);
    }
  }

  /** Retries are skipped: with no answer among the replies, reading
      resumes at the first reply after them. */
  lemma {:induction false} FirstAnswerResumes(replies: seq<Reply>, more: seq<Reply>, start: nat)
    requires start <= |replies| && FirstAnswer(replies, start).None?
    ensures FirstAnswer(replies + more, start) == FirstAnswer(replies + more, |replies|)
    decreases |replies| - start
  {
    if start < |replies| {
      assert (replies + more)[start] == replies[start];
      FirstAnswerResumes(replies, more, start + 1);
    }
  }

  lemma {:induction false} RepliesAppend(lines: seq<string>, more: seq<string>)
    ensures Replies(lines + more) == Replies(lines) + Replies(more)
  {
    if lines != [] {
      assert (lines + more)[1..] == lines[1..] + more;
      RepliesAppend(lines[1..], more);
    } else {
      assert lines + more == more;
    }
  }

  /** An answer `ask_yes_no` settles on stays the same whatever lines
      come after. */
  lemma NextReplyStable(lines: seq<string>, more: seq<string>, start: nat)
    requires start <= |lines| && NextReply(lines, start).Some?
    ensures NextReply(lines + more, start) == NextReply(lines, start)
  {
    RepliesAppend(lines, more);
    FirstAnswerStable(Replies(lines), Replies(more), start);
  }

  /** When `ask_yes_no` finds no answer among the lines, it goes on with
      the lines that follow them. */
  lemma NextReplyResumes(lines: seq<string>, more: seq<string>, start: nat)
    requires start <= |lines| && NextReply(lines, start).None?
    ensures NextReply(lines + more, start) == NextReply(lines + more, |lines|)
  {
    RepliesAppend(lines, more);
    FirstAnswerResumes(Replies(lines), Replies(more), start);
  }

  /** A blank line is a retry and a line "n" is a no. */
  lemma ClassifyBlankNo()
    ensures Classify("") == Retry
    ensures Classify("n") == No
  {
    assert Lower("n") == "n";
    assert Strip("n") == "n";
  }

  /** Read at a blank line followed by a line "n", `ask_yes_no` settles on
      no, just past the "n". */
  lemma NextReplyBlankNo(lines: seq<string>, k: nat)
    requires k + 1 < |lines| && lines[k] == "" && lines[k + 1] == "n"
    ensures NextReply(lines, k) == Some((false, k + 2))
  {
    ClassifyBlankNo();
    RepliesAt(lines, k);
    RepliesAt(lines, k + 1);
    FirstAnswerAt(Replies(lines), k, k + 1, No);
  }

  /** Read at a line "n", `ask_yes_no` settles on no, just past it. */
  lemma NextReplyNo(lines: seq<string>, k: nat)
    requires k < |lines| && lines[k] == "n"
    ensures NextReply(lines, k) == Some((false, k + 1))
  {
    ClassifyBlankNo();
    RepliesAt(lines, k);
    FirstAnswerAt(Replies(lines), k, k, No);
  }

  /** `ask_yes_no`: reads lines from `start` until one classifies as a yes
      or a no. The result is that answer and the cursor past its line;
      every line skipped on the way was a retry. When the lines run out
      first, there is no answer. */
  method AskYesNo(lines: seq<string>, start: nat) returns (answer: Option<bool>, next: nat)
    requires start <= |lines|
    ensures start <= next <= |lines|
    ensures answer.None? ==> next == |lines|
    ensures NextReply(lines, start) == if answer.Some? then Some((answer.value, next)) else None
  {
    next := start;
    while next < |lines|
      invariant start <= next <= |lines|
      invariant NextReply(lines, next) == NextReply(lines, start)
    {
      var reply := Classify(lines[next]);
      RepliesAt(lines, next);
      next := next + 1;
      match reply
      case Yes => return Some(true), next;
      case No => return Some(false), next;
      case Retry =>
    }
    answer := None;
  }

  /** Puts `words` in front of a keyword list, if there is one. */
  function Prefixed(words: seq<string>, rest: Option<seq<string>>): Option<seq<string>> {
    if rest.None? then None else Some(words + rest.value)
  }

  /** The keywords `main` collects from `start`: each answer read with no
      default, kept while it gives a word, up to the first blank answer;
      nothing when the lines run out first. */
  function KeywordsFrom(lines: seq<string>, start: nat): (r: Option<seq<string>>)
    requires start <= |lines|
    ensures r.Some? ==> start + |r.value| < |lines|
    decreases |lines| - start
  {
    if start == |lines| then None
    else match GetInput(lines[start], None)
      case None => Some([])
      case Some(word) => Prefixed([word], KeywordsFrom(lines, start + 1))
  }

  /** The collected keywords are the stripped lines before the first blank
      one, each non-empty. */
  lemma {:induction false} KeywordsFromLines(lines: seq<string>, start: nat)
    requires start <= |lines|
    ensures KeywordsFrom(lines, start).Some? ==>
              var keywords := KeywordsFrom(lines, start).value;
              && AllSpace(lines[start + |keywords|])
              && forall i :: 0 <= i < |keywords| ==>
                   keywords[i] == Strip(lines[start + i]) && keywords[i] != ""
    ensures KeywordsFrom(lines, start).None? ==>
              forall i :: start <= i < |lines| ==> !AllSpace(lines[i])
    decreases |lines| - start
  {
    if start < |lines| && !AllSpace(lines[start]) {
      KeywordsFromLines(lines, start + 1);
      var rest := KeywordsFrom(lines, start + 1);
      if rest.Some? {
        var keywords := KeywordsFrom(lines, start).value;
        assert keywords == [Strip(lines[start])] + rest.value;
        forall i | 0 <= i < |keywords|
          ensures keywords[i] == Strip(lines[start + i]) && keywords[i] != ""
        {
          if i > 0 {
            assert keywords[i] == rest.value[i - 1];
          }
        }
      }
    }
  }

  /** The keyword loop of `main`: answers from `start` are stripped and
      collected in order up to the first blank line, which ends the
      loop and is consumed. When the lines run out first, nothing is
      returned. */
  method CollectKeywords(lines: seq<string>, start: nat) returns (keywords: Option<seq<string>>, next: nat)
    requires start <= |lines|
    ensures keywords == KeywordsFrom(lines, start)
    ensures keywords.None? ==> next == |lines|
    ensures keywords.Some? ==> next == start + |keywords.value| + 1
  {
    var words: seq<string> := [];
    next := start;
    assert KeywordsFrom(lines, start) == Prefixed(words, KeywordsFrom(lines, next)) by {
      if KeywordsFrom(lines, start).Some? {
        assert words + KeywordsFrom(lines, start).value == KeywordsFrom(lines, start).value;
      }
    }
    while next < |lines|
      invariant start <= next <= |lines|
      invariant |words| == next - start
      invariant KeywordsFrom(lines, start) == Prefixed(words, KeywordsFrom(lines, next))
    {
      var word := GetInput(lines[next], None);
      if word.Some? {
        PrefixedAppend(words, word.value, KeywordsFrom(lines, next + 1));
        words := words + [word.value];
        next := next + 1;
      } else {
        assert words + [] == words;
        return Some(words), next + 1;
      }
    }
    keywords := None;
  }

  lemma PrefixedAppend(words: seq<string>, word: string, rest: Option<seq<string>>)
    ensures Prefixed(words, Prefixed([word], rest)) == Prefixed(words + [word], rest)
  {
    if rest.Some? {
      assert words + ([word] + rest.value) == words + [word] + rest.value;
    }
  }

  /** Keywords collected up to a blank line stay the same whatever lines
      come after. */
  lemma {:induction false} KeywordsStable(lines: seq<string>, more: seq<string>, start: nat)
    requires start <= |lines| && KeywordsFrom(lines, start).Some?
    ensures KeywordsFrom(lines + more, start) == KeywordsFrom(lines, start)
    decreases |lines| - start
  {
    assert (lines + more)[start] == lines[start];
    if GetInput(lines[start], None).Some? {
      KeywordsStable(lines, more, start + 1);
    }
  }

  /** When the lines run out before a blank line, a blank line after them
      ends the keyword loop, which then holds one keyword per line read. */
  lemma {:induction false} KeywordsEnd(lines: seq<string>, more: seq<string>, start: nat)
    requires start <= |lines| && KeywordsFrom(lines, start).None?
    requires more != [] && more[0] == ""
    ensures KeywordsFrom(lines + more, start).Some?
    ensures |KeywordsFrom(lines + more, start).value| == |lines| - start
    decreases |lines| - start
  {
    if start < |lines| {
      assert (lines + more)[start] == lines[start];
      KeywordsEnd(lines, more, start + 1);
    } else {
      assert (lines + more)[start] == "";
    }
  }
}
