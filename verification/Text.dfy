/** The parts of Go's `strings` package that the header and origin parsers rely on. */
module Text {

  /** White space as `unicode.IsSpace` has it. */
  predicate IsSpace(c: char) {
    || '\t' <= c <= '\r'
    || c == ' '
    || c == '\U{0085}'
    || c == '\U{00A0}'
    || c == '\U{1680}'
    || '\U{2000}' <= c <= '\U{200A}'
    || c == '\U{2028}'
    || c == '\U{2029}'
    || c == '\U{202F}'
    || c == '\U{205F}'
    || c == '\U{3000}'
  }

  /** The 25 characters with Unicode's White_Space property. */
  const WHITE_SPACE := "\t\n\U{000B}\U{000C}\r \U{0085}\U{00A0}\U{1680}" +
    "\U{2000}\U{2001}\U{2002}\U{2003}\U{2004}\U{2005}\U{2006}\U{2007}\U{2008}\U{2009}\U{200A}" +
    "\U{2028}\U{2029}\U{202F}\U{205F}\U{3000}"

  lemma SpacesAreWhiteSpace(c: char)
    ensures IsSpace(c) <==> c in WHITE_SPACE
    ensures |WHITE_SPACE| == 25
  {
    assert forall i | 0 <= i < |WHITE_SPACE| :: IsSpace(WHITE_SPACE[i]);
    if '\t' <= c <= '\r' {
      assert c == WHITE_SPACE[c as int - 9];
    } else if '\U{2000}' <= c <= '\U{200A}' {
      assert c == WHITE_SPACE[c as int - 0x2000 + 9];
    }
  }

  predicate Blank(s: string) {
    forall i | 0 <= i < |s| :: IsSpace(s[i])
  }

  /** No white space at either end. */
  predicate Trimmed(s: string) {
    s == "" || (!IsSpace(s[0]) && !IsSpace(s[|s| - 1]))
  }

  function TrimLeft(s: string): string {
    if s != "" && IsSpace(s[0]) then TrimLeft(s[1..]) else s
  }

  function TrimRight(s: string): string {
    if s != "" && IsSpace(s[|s| - 1]) then TrimRight(s[..|s| - 1]) else s
  }

  function TrimSpace(s: string): string {
    TrimRight(TrimLeft(s))
  }

  lemma {:induction false} TrimLeftSplits(s: string) returns (left: string)
    ensures s == left + TrimLeft(s) && Blank(left)
    ensures TrimLeft(s) == "" || !IsSpace(TrimLeft(s)[0])
  {
    if s != "" && IsSpace(s[0]) {
      var rest := TrimLeftSplits(s[1..]);
      left := [s[0]] + rest;
      assert s == [s[0]] + s[1..];
    } else {
      left := "";
    }
  }

  lemma {:induction false} TrimRightSplits(s: string) returns (right: string)
    ensures s == TrimRight(s) + right && Blank(right)
    ensures TrimRight(s) == "" || !IsSpace(TrimRight(s)[|TrimRight(s)| - 1])
  {
    if s != "" && IsSpace(s[|s| - 1]) {
      var rest := TrimRightSplits(s[..|s| - 1]);
      right := rest + [s[|s| - 1]];
      assert s == s[..|s| - 1] + [s[|s| - 1]];
    } else {
      right := "";
    }
  }

  /** Trimming removes white space from both ends and nothing else. */
  lemma TrimSplits(s: string) returns (left: string, right: string)
    ensures s == left + TrimSpace(s) + right
    ensures Blank(left) && Blank(right) && Trimmed(TrimSpace(s))
  {
    left := TrimLeftSplits(s);
    right := TrimRightSplits(TrimLeft(s));
    assert s == left + (TrimSpace(s) + right);
  }

  /** There is only one way to cut blank ends off a string and be left with trimmed text. */
  lemma TrimUnique(s: string, left: string, t: string, right: string)
    requires s == left + t + right
    requires Blank(left) && Blank(right) && Trimmed(t)
    ensures TrimSpace(s) == t
  {
    var l, r := TrimSplits(s);
    var u := TrimSpace(s);
    assert forall i | 0 <= i < |left| :: s[i] == left[i];
    assert forall i | 0 <= i < |l| :: s[i] == l[i];
    assert forall i | 0 <= i < |right| :: s[|left| + |t| + i] == right[i];
    assert forall i | 0 <= i < |r| :: s[|l| + |u| + i] == r[i];
    assert forall i | 0 <= i < |u| :: s[|l| + i] == u[i];
    if t == "" {
      assert Blank(s);
    } else {
      assert s[|left|] == t[0] && s[|left| + |t| - 1] == t[|t| - 1];
      assert u != "";
      assert s[|l|] == u[0] && s[|l| + |u| - 1] == u[|u| - 1];
      assert |l| == |left|;
      assert |u| == |t|;
      assert t == s[|left|..|left| + |t|] == u;
    }
  }

  /** `strings.Split(s, ",")`: the pieces between commas. */
  function Split(s: string): (parts: seq<string>)
    ensures |parts| > 0
  {
    if s == "" then [""]
    else
      var rest := Split(s[1..]);
      if s[0] == ',' then [""] + rest else [[s[0]] + rest[0]] + rest[1..]
  }

  /** `strings.Join(parts, ",")`. */
  function Join(parts: seq<string>): string {
    if parts == [] then ""
    else if |parts| == 1 then parts[0]
    else parts[0] + "," + Join(parts[1..])
  }

  /** Splitting and joining are inverse on every string, and the pieces hold no comma. */
  lemma {:induction false} JoinOfSplit(s: string)
    ensures Join(Split(s)) == s
    ensures forall i | 0 <= i < |Split(s)| :: ',' !in Split(s)[i]
  {
    if s != "" {
      JoinOfSplit(s[1..]);
      var rest := Split(s[1..]);
      var parts := Split(s);
      if s[0] == ',' {
        assert parts[1..] == rest;
      } else {
        assert parts[1..] == rest[1..];
      }
    }
  }

  lemma {:induction false} SplitOfText(head: string, tail: string)
    requires ',' !in head
    ensures Split(head + "," + tail) == [head] + Split(tail)
  {
    var s := head + "," + tail;
    if head == "" {
      assert s[1..] == tail;
    } else {
      assert s[1..] == head[1..] + "," + tail;
      SplitOfText(head[1..], tail);
      assert [s[0]] + head[1..] == head;
    }
  }

  lemma {:induction false} SplitOfWord(word: string)
    requires ',' !in word
    ensures Split(word) == [word]
  {
    if word != "" {
      SplitOfWord(word[1..]);
      assert [word[0]] + word[1..] == word;
    }
  }

  lemma {:induction false} SplitOfJoin(parts: seq<string>)
    requires parts != []
    requires forall i | 0 <= i < |parts| :: ',' !in parts[i]
    ensures Split(Join(parts)) == parts
  {
    if |parts| == 1 {
      SplitOfWord(parts[0]);
    } else {
      SplitOfJoin(parts[1..]);
      SplitOfText(parts[0], Join(parts[1..]));
    }
  }

  /** `strings.Index(s, word)`: where the word first occurs, or -1. */
  function Index(s: string, word: string): (at: int)
    ensures -1 <= at && (at >= 0 ==> at + |word| <= |s|)
  {
    if word <= s then 0
    else if s == "" then -1
    else
      var next := Index(s[1..], word);
      if next < 0 then -1 else next + 1
  }

  /** The word stands at the index found and nowhere before it; at -1 it stands nowhere. */
  lemma {:induction false} IndexIsFirst(s: string, word: string)
    ensures var at := Index(s, word);
            && (at >= 0 ==> word <= s[at..])
            && (forall i | 0 <= i <= |s| && (at < 0 || i < at) :: !(word <= s[i..]))
  {
    if !(word <= s) && s != "" {
      IndexIsFirst(s[1..], word);
      var at := Index(s, word);
      forall i | 0 <= i <= |s| && (at < 0 || i < at)
        ensures !(word <= s[i..])
      {
        if i > 0 {
          assert s[i..] == s[1..][i - 1..];
        } else {
          assert s[i..] == s;
        }
      }
      assert at >= 0 ==> s[at..] == s[1..][at - 1..];
    }
  }
}
