/** String operations the helper relies on: Python's `str.strip()`,
    `str.lower()` and `str.join`, restricted to ASCII. */
module Text {
  import opened Wrappers

  /** The ASCII characters for which Python's `str.isspace()` holds:
      space, tab through carriage return (9..13) and the four
      separator controls (28..31). */
  predicate IsSpace(c: char) {
    c == ' ' || (9 <= c as int <= 13) || (28 <= c as int <= 31)
  }

  predicate AllSpace(s: string) {
    forall i :: 0 <= i < |s| ==> IsSpace(s[i])
  }

  /** Neither end of `s` is whitespace. */
  predicate Trimmed(s: string) {
    s == [] || (!IsSpace(s[0]) && !IsSpace(s[|s| - 1]))
  }

  /** Python truthiness of an optional string: present and non-empty. */
  predicate Truthy(o: Option<string>) {
    o.Some? && o.value != ""
  }

  /** Python's `s.strip()` with no argument: whitespace is removed from
      the front, then from the back, until neither end is whitespace. */
  function Strip(s: string): (r: string)
    ensures Trimmed(r)
    ensures r == "" <==> AllSpace(s)
    ensures |r| <= |s|
  {
    if s != [] && IsSpace(s[0]) then
      assert AllSpace(s) <==> AllSpace(s[1..]) by {
        assert forall k :: 1 <= k < |s| ==> s[k] == s[1..][k - 1];
      }
      Strip(s[1..])
    else if s != [] && IsSpace(s[|s| - 1]) then
      assert AllSpace(s) <==> AllSpace(s[..|s| - 1]) by {
        assert forall k :: 0 <= k < |s| - 1 ==> s[k] == s[..|s| - 1][k];
      }
      Strip(s[..|s| - 1])
    else
      s
  }

  function LowerChar(c: char): char {
    if 'A' <= c <= 'Z' then (c as int + 32) as char else c
  }

  /** Python's `s.lower()` on ASCII letters; other characters are kept. */
  function Lower(s: string): (r: string)
    ensures |r| == |s|
  {
    if s == [] then [] else [LowerChar(s[0])] + Lower(s[1..])
  }

  /** Python's `sep.join(words)` for a one-character separator. */
  function Join(words: seq<string>, sep: char): (r: string)
    ensures words != [] ==> |words[0]| <= |r| && r[..|words[0]|] == words[0]
  {
    if words == [] then ""
    else if |words| == 1 then words[0]
    else words[0] + [sep] + Join(words[1..], sep)
  }

  /** `strip` keeps exactly the non-blank middle of a line: whatever
      whitespace surrounds a trimmed, non-empty text is removed. */
  lemma {:induction false} StripOf(s: string, pre: string, mid: string, post: string)
    requires s == pre + mid + post
    requires AllSpace(pre) && AllSpace(post)
    requires mid != "" && Trimmed(mid)
    ensures Strip(s) == mid
    decreases |pre| + |post|
  {
    if pre != [] {
      assert s[0] == pre[0];
      assert s[1..] == pre[1..] + mid + post;
      StripOf(s[1..], pre[1..], mid, post);
    } else if post != [] {
      assert s[|s| - 1] == post[|post| - 1];
      assert !IsSpace(s[0]) by {
        assert s[0] == mid[0];
      }
      assert s[..|s| - 1] == pre + mid + post[..|post| - 1];
      StripOf(s[..|s| - 1], pre, mid, post[..|post| - 1]);
    } else {
      assert s == mid;
    }
  }

  /** The stripped text is a slice of the line with only whitespace
      around it. */
  lemma {:induction false} StripSplits(s: string) returns (pre: string, post: string)
    ensures s == pre + Strip(s) + post
    ensures AllSpace(pre) && AllSpace(post)
  {
    if s != [] && IsSpace(s[0]) {
      var pre', post' := StripSplits(s[1..]);
      pre, post := [s[0]] + pre', post';
      assert s == pre + Strip(s) + post by {
        assert s == [s[0]] + s[1..];
        Regroup([s[0]], pre', Strip(s[1..]), post');
      }
      SpaceConcat([s[0]], pre');
    } else if s != [] && IsSpace(s[|s| - 1]) {
      var pre', post' := StripSplits(s[..|s| - 1]);
      pre, post := pre', post' + [s[|s| - 1]];
      assert s == pre + Strip(s) + post by {
        assert s == s[..|s| - 1] + [s[|s| - 1]];
        Regroup(pre', Strip(s[..|s| - 1]), post', [s[|s| - 1]]);
      }
      SpaceConcat(post', [s[|s| - 1]]);
    } else {
      pre, post := "", "";
      assert s == "" + s + "";
    }
  }

  lemma SpaceConcat(a: string, b: string)
    requires AllSpace(a) && AllSpace(b)
    ensures AllSpace(a + b)
  {
    assert forall k :: |a| <= k < |a + b| ==> (a + b)[k] == b[k - |a|];
  }

  lemma Regroup(a: string, b: string, c: string, d: string)
    ensures a + (b + c + d) == a + b + c + d
    ensures a + b + c + d == (a + b) + (c + d)
    ensures (a + b + c) + d == a + b + (c + d)
  {}

  lemma Regroup5(a: string, b: string, c: string, d: string, e: string)
    ensures a + (b + c + d) + e == (a + b) + c + (d + e)
  {}

  /** Whitespace added around an answer does not change what `strip`
      makes of it. */
  lemma StripAbsorbsPadding(pre: string, s: string, post: string)
    requires AllSpace(pre) && AllSpace(post)
    ensures Strip(pre + s + post) == Strip(s)
  {
    if AllSpace(s) {
      assert AllSpace(pre + s + post);
    } else {
      var before, after := StripSplits(s);
      Regroup5(pre, before, Strip(s), after, post);
      StripOf(pre + s + post, pre + before, Strip(s), after + post);
    }
  }

  lemma {:induction false} LowerAt(s: string)
    ensures forall i :: 0 <= i < |s| ==> Lower(s)[i] == LowerChar(s[i])
  {
    if s != [] {
      LowerAt(s[1..]);
    }
  }

  lemma {:induction false} LowerConcat(a: string, b: string)
    ensures Lower(a + b) == Lower(a) + Lower(b)
  {
    if a != [] {
      assert (a + b)[1..] == a[1..] + b;
      LowerConcat(a[1..], b);
    } else {
      assert a + b == b;
    }
  }

  /** Lower-casing never turns a character into whitespace or back. */
  lemma LowerKeepsSpace(s: string)
    ensures forall i :: 0 <= i < |s| ==> IsSpace(Lower(s)[i]) == IsSpace(s[i])
  {
    LowerAt(s);
  }

  /** Lower-casing and stripping commute, so `line.lower().strip()` is the
      lower-cased form of the stripped line. */
  lemma StripLowerCommute(s: string)
    ensures Strip(Lower(s)) == Lower(Strip(s))
  {
    LowerKeepsSpace(s);
    if AllSpace(s) {
      assert AllSpace(Lower(s));
    } else {
      var pre, post := StripSplits(s);
      var mid := Strip(s);
      LowerConcat(pre, mid);
      LowerConcat(pre + mid, post);
      LowerKeepsSpace(pre);
      LowerKeepsSpace(mid);
      LowerKeepsSpace(post);
      StripOf(Lower(s), Lower(pre), Lower(mid), Lower(post));
    }
  }

  /** Joining a list grown by one word appends a separator and that word,
      so the joined text keeps the words in list order. */
  lemma {:induction false} JoinAppend(words: seq<string>, w: string, sep: char)
    requires words != []
    ensures Join(words + [w], sep) == Join(words, sep) + [sep] + w
  {
    if |words| > 1 {
      assert (words + [w])[1..] == words[1..] + [w];
      JoinAppend(words[1..], w, sep);
    }
  }
}
