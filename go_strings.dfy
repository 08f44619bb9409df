/** The few functions of Go's `strings` package that the engine relies on,
    stated over `seq<char>`: search for a rune, search for any of a set of
    runes, prefix test, and split on a one-character separator (with its
    inverse, join). */
module GoStrings {

  /** strings.IndexRune: the index of the first `c` in `s`, or -1. */
  function IndexRune(s: string, c: char): (n: int)
    ensures -1 <= n < |s|
    ensures n == -1 <==> c !in s
    ensures n >= 0 ==> s[n] == c && c !in s[..n]
  {
    if |s| == 0 then -1
    else if s[0] == c then 0
    else
      var j := IndexRune(s[1..], c);
      assert s == [s[0]] + s[1..];
      if j < 0 then -1
      else
        assert s[..j + 1] == [s[0]] + s[1..][..j];
        j + 1
  }

  /** strings.IndexAny: the index of the first rune of `s` that occurs in
      `chars`, or -1 when there is none. */
  function IndexAny(s: string, chars: string): (n: int)
    ensures -1 <= n < |s|
    ensures n == -1 <==> forall i :: 0 <= i < |s| ==> s[i] !in chars
    ensures n >= 0 ==> s[n] in chars && forall i :: 0 <= i < n ==> s[i] !in chars
  {
    if |s| == 0 then -1
    else if s[0] in chars then 0
    else
      var j := IndexAny(s[1..], chars);
      if j < 0 then -1 else j + 1
  }

  /** strings.HasPrefix. */
  predicate HasPrefix(s: string, prefix: string) {
    |prefix| <= |s| && s[..|prefix|] == prefix
  }

  /** s starts with prefix exactly when s is prefix followed by the rest. */
  lemma HasPrefixSplits(s: string, prefix: string)
    ensures HasPrefix(s, prefix) <==> |prefix| <= |s| && s == prefix + s[|prefix|..]
  {
    if |prefix| <= |s| && s == prefix + s[|prefix|..] {
      assert s[..|prefix|] == (prefix + s[|prefix|..])[..|prefix|];
    }
  }

  /** strings.Split for a one-rune separator: the pieces between the
      separators, in order; there is always at least one piece, and more
      than one exactly when the separator occurs. */
  function Split(s: string, sep: char): (parts: seq<string>)
    ensures |parts| >= 1
    ensures (|parts| >= 2) == (sep in s)
    decreases |s|
  {
    var n := IndexRune(s, sep);
    if n < 0 then [s]
    else
      assert sep !in s[..n];
      [s[..n]] + Split(s[n + 1..], sep)
  }

  /** No piece of a split holds the separator. */
  lemma {:induction false} SplitPiecesFree(s: string, sep: char)
    ensures forall i :: 0 <= i < |Split(s, sep)| ==> sep !in Split(s, sep)[i]
    decreases |s|
  {
    var n := IndexRune(s, sep);
    if n >= 0 {
      var rest := Split(s[n + 1..], sep);
      SplitPiecesFree(s[n + 1..], sep);
      assert Split(s, sep) == [s[..n]] + rest;
      forall i | 0 <= i < |Split(s, sep)|
        ensures sep !in Split(s, sep)[i]
      {
        if i > 0 {
          assert Split(s, sep)[i] == rest[i - 1];
        }
      }
    }
  }

  /** strings.Join for a one-rune separator, the inverse of Split. */
  function Join(parts: seq<string>, sep: char): string {
    if |parts| == 0 then ""
    else if |parts| == 1 then parts[0]
    else parts[0] + [sep] + Join(parts[1..], sep)
  }

  /** Joining a first piece in front of at least one more. */
  lemma JoinCons(head: string, tail: seq<string>, sep: char)
    requires |tail| >= 1
    ensures Join([head] + tail, sep) == head + [sep] + Join(tail, sep)
  {
    assert ([head] + tail)[1..] == tail;
  }

  /** Joining the pieces of a split gives back the original string. */
  lemma {:induction false} JoinSplit(s: string, sep: char)
    ensures Join(Split(s, sep), sep) == s
    decreases |s|
  {
    var n := IndexRune(s, sep);
    if n >= 0 {
      var rest := s[n + 1..];
      var tail := Split(rest, sep);
      assert Split(s, sep) == [s[..n]] + tail;
      calc {
        Join(Split(s, sep), sep);
        Join([s[..n]] + tail, sep);
        { JoinCons(s[..n], tail, sep); }
        s[..n] + [sep] + Join(tail, sep);
        { JoinSplit(rest, sep); }
        s[..n] + [sep] + rest;
        { AroundIndex(s, n); }
        s;
      }
    }
  }

  /** A string is the part before an index, the rune there, and the rest. */
  lemma AroundIndex(s: string, n: nat)
    requires n < |s|
    ensures s == s[..n] + [s[n]] + s[n + 1..]
  {
  }

  /** Splitting a join of separator-free pieces gives back the pieces. */
  lemma {:induction false} SplitJoin(parts: seq<string>, sep: char)
    requires |parts| >= 1
    requires forall i :: 0 <= i < |parts| ==> sep !in parts[i]
    ensures Split(Join(parts, sep), sep) == parts
  {
    if |parts| > 1 {
      var head, rest := parts[0], Join(parts[1..], sep);
      SplitJoin(parts[1..], sep);
      var s := head + [sep] + rest;
      assert s[..|head|] == head;
      assert s[|head|] == sep;
      assert IndexRune(s, sep) == |head|;
      assert s[|head| + 1..] == rest;
      assert parts == [head] + parts[1..];
    }
  }
}
