/**
 * The parts of Go's `strings` and `unicode/utf8` packages the core relies on:
 * `strings.Index`, `strings.Split` and `strings.Join` with a non-empty
 * separator, and the byte length `len(s)` of a string. A Go string is modelled
 * as its sequence of runes.
 */
module GoStrings {
  import opened Wrappers

  predicate OccursAt(s: string, sep: string, i: nat)
  {
    i + |sep| <= |s| && s[i..i + |sep|] == sep
  }

  /** First occurrence of `sep` at or after position `i`. */
  function IndexFrom(s: string, sep: string, i: nat): (r: Option<nat>)
    requires i <= |s|
    ensures r.Some? ==> i <= r.value && OccursAt(s, sep, r.value)
    ensures r.Some? ==> forall j: nat :: i <= j < r.value ==> !OccursAt(s, sep, j)
    ensures r.None? ==> forall j: nat :: i <= j ==> !OccursAt(s, sep, j)
    decreases |s| - i
  {
    if i + |sep| > |s| then None
    else if s[i..i + |sep|] == sep then Some(i)
    else IndexFrom(s, sep, i + 1)
  }

  /** `strings.Index`: the leftmost occurrence of `sep` in `s`, if any. */
  function Index(s: string, sep: string): (r: Option<nat>)
    ensures r.Some? ==> OccursAt(s, sep, r.value) && forall j: nat :: j < r.value ==> !OccursAt(s, sep, j)
    ensures r.None? ==> forall j: nat :: !OccursAt(s, sep, j)
  {
    IndexFrom(s, sep, 0)
  }

  predicate Contains(s: string, sep: string)
  {
    Index(s, sep).Some?
  }

  /**
   * `strings.Split(s, sep)` for a non-empty separator: the pieces between
   * successive non-overlapping occurrences, scanning left to right.
   */
  function Split(s: string, sep: string): (parts: seq<string>)
    requires |sep| > 0
    ensures |parts| >= 1
    decreases |s|
  {
    match Index(s, sep)
    case None => [s]
    case Some(i) => [s[..i]] + Split(s[i + |sep|..], sep)
  }

  /** `strings.Join`. */
  function Join(parts: seq<string>, sep: string): string
  {
    if |parts| == 0 then ""
    else if |parts| == 1 then parts[0]
    else parts[0] + sep + Join(parts[1..], sep)
  }

  /** Joining the pieces of a split gives the original string back. */
  lemma {:induction false} JoinSplit(s: string, sep: string)
    requires |sep| > 0
    ensures Join(Split(s, sep), sep) == s
    decreases |s|
  {
    var idx := Index(s, sep);
    if idx.Some? {
      var i := idx.value;
      var rest := s[i + |sep|..];
      JoinSplit(rest, sep);
      SplitAtFirst(s, sep, i);
      JoinCons(s[..i], Split(rest, sep), sep);
      SliceAround(s, i, |sep|);
    }
  }

  lemma SliceAround(s: string, i: nat, n: nat)
    requires i + n <= |s|
    ensures s == s[..i] + s[i..i + n] + s[i + n..]
  {
  }

  lemma {:induction false} JoinCons(a: string, t: seq<string>, sep: string)
    requires |t| >= 1
    ensures Join([a] + t, sep) == a + sep + Join(t, sep)
  {
    assert ([a] + t)[1..] == t;
  }

  /** No piece of a split contains the separator. */
  lemma {:induction false} SplitPiecesFree(s: string, sep: string)
    requires |sep| > 0
    ensures forall k :: 0 <= k < |Split(s, sep)| ==> !Contains(Split(s, sep)[k], sep)
    decreases |s|
  {
    match Index(s, sep)
    case None =>
    case Some(i) =>
      var rest := s[i + |sep|..];
      SplitPiecesFree(rest, sep);
      SplitAtFirst(s, sep, i);
      var head := s[..i];
      forall j: nat | OccursAt(head, sep, j)
        ensures false
      {
        assert head[j..j + |sep|] == s[j..j + |sep|];
        assert OccursAt(s, sep, j);
      }
  }

  /** A split has more than one piece exactly when the separator occurs. */
  lemma SplitMany(s: string, sep: string)
    requires |sep| > 0
    ensures |Split(s, sep)| > 1 <==> Contains(s, sep)
  {
    var idx := Index(s, sep);
    if idx.Some? {
      SplitSecond(s, sep, idx.value);
    }
  }

  /** A string without the separator splits into itself. */
  lemma SplitFree(s: string, sep: string)
    requires |sep| > 0 && !Contains(s, sep)
    ensures Split(s, sep) == [s]
  {
  }

  /** A piece free of a one-character separator is split off exactly. */
  lemma {:induction false} SplitCons(a: string, c: char, b: string)
    requires c !in a
    ensures Split(a + [c] + b, [c]) == [a] + Split(b, [c])
  {
    var s := a + [c] + b;
    assert OccursAt(s, [c], |a|);
    forall j: nat | j < |a|
      ensures !OccursAt(s, [c], j)
    {
      assert s[j] == a[j];
    }
    assert Index(s, [c]) == Some(|a|);
    assert s[..|a|] == a;
    assert s[|a| + 1..] == b;
    SplitAtFirst(s, [c], |a|);
  }

  /** A one-character separator occurs in `s` exactly when the character is in it. */
  lemma ContainsChar(s: string, c: char)
    ensures Contains(s, [c]) <==> c in s
  {
    if c in s {
      var j :| 0 <= j < |s| && s[j] == c;
      assert OccursAt(s, [c], j);
    }
    if Contains(s, [c]) {
      var j := Index(s, [c]).value;
      assert s[j] == s[j..j + 1][0];
    }
  }

  /** Splitting a split-off tail: the pieces after the first occurrence are the tail's pieces. */
  lemma SplitAtFirst(s: string, sep: string, i: nat)
    requires |sep| > 0 && Index(s, sep) == Some(i)
    ensures Split(s, sep) == [s[..i]] + Split(s[i + |sep|..], sep)
  {
    match Index(s, sep)
    case Some(k) =>
      assert k == i;
  }

  /** The second piece of a split is the first piece of what follows the first separator. */
  lemma SplitSecond(s: string, sep: string, i: nat)
    requires |sep| > 0 && Index(s, sep) == Some(i)
    ensures |Split(s, sep)| >= 2 && Split(s, sep)[1] == Split(s[i + |sep|..], sep)[0]
  {
  }

  /** The first piece of a split ends at the first separator, or at the end. */
  lemma {:induction false} FirstPiece(s: string, sep: string)
    requires |sep| > 0
    ensures var t := Split(s, sep)[0];
            |t| <= |s| && s[..|t|] == t && !Contains(t, sep) &&
            (|t| == |s| || OccursAt(s, sep, |t|))
  {
    SplitPiecesFree(s, sep);
    var idx := Index(s, sep);
    if idx.Some? {
      SplitAtFirst(s, sep, idx.value);
    }
  }

  /**
   * Where the second piece of a split sits: right after the first separator,
   * ending at the next separator or at the end of the string.
   */
  lemma {:induction false} SecondPiece(s: string, sep: string)
    requires |sep| > 0 && Contains(s, sep)
    ensures |Split(s, sep)| >= 2
    ensures var t := Split(s, sep)[1]; var start := Index(s, sep).value + |sep|;
            start + |t| <= |s| && s[start..start + |t|] == t && !Contains(t, sep) &&
            (start + |t| == |s| || OccursAt(s, sep, start + |t|))
  {
    var i := Index(s, sep).value;
    SecondPieceAt(s, sep, i);
  }

  /**
   * `t` sits in `s` from `start`, holds no separator, and ends at the end of
   * `s` or at a separator.
   */
  predicate PieceFrom(s: string, sep: string, start: nat, t: string)
  {
    start + |t| <= |s| && s[start..start + |t|] == t && !Contains(t, sep) &&
    (start + |t| == |s| || OccursAt(s, sep, start + |t|))
  }

  lemma {:induction false} SecondPieceAt(s: string, sep: string, i: nat)
    requires |sep| > 0 && Index(s, sep) == Some(i)
    ensures |Split(s, sep)| >= 2 && PieceFrom(s, sep, i + |sep|, Split(s, sep)[1])
  {
    var start := i + |sep|;
    var rest := Split(s[start..], sep);
    SplitAtFirst(s, sep, i);
    assert ([s[..i]] + rest)[1] == rest[0];
    PieceAt(s, start, sep, rest[0]);
  }

  /** The first piece of the split of a suffix, located in the whole string. */
  lemma {:induction false} PieceAt(s: string, start: nat, sep: string, t: string)
    requires |sep| > 0 && start <= |s| && t == Split(s[start..], sep)[0]
    ensures PieceFrom(s, sep, start, t)
  {
    var rest := s[start..];
    FirstPiece(rest, sep);
    InSuffix(s, start, 0, |t|);
    if start + |t| < |s| {
      InSuffix(s, start, |t|, |t| + |sep|);
    }
  }

  /** A slice of a suffix is the slice of the whole string, shifted. */
  lemma InSuffix(s: string, start: nat, a: nat, b: nat)
    requires start <= |s| && a <= b <= |s| - start
    ensures s[start..][a..b] == s[start + a..start + b]
  {
  }

  /** Number of occurrences of one character. */
  function CountChar(s: string, c: char): nat
  {
    if |s| == 0 then 0 else (if s[0] == c then 1 else 0) + CountChar(s[1..], c)
  }

  lemma {:induction false} CountCharAppend(a: string, b: string, c: char)
    ensures CountChar(a + b, c) == CountChar(a, c) + CountChar(b, c)
    decreases |a|
  {
    if |a| > 0 {
      assert (a + b)[1..] == a[1..] + b;
      CountCharAppend(a[1..], b, c);
    } else {
      assert a + b == b;
    }
  }

  lemma {:induction false} CountCharAbsent(s: string, c: char)
    requires c !in s
    ensures CountChar(s, c) == 0
    decreases |s|
  {
    if |s| > 0 {
      CountCharAbsent(s[1..], c);
    }
  }

  /** Splitting on a character gives one more piece than it has occurrences. */
  lemma {:induction false} SplitCount(s: string, c: char)
    ensures |Split(s, [c])| == CountChar(s, c) + 1
    decreases |s|
  {
    var idx := Index(s, [c]);
    if idx.None? {
      ContainsChar(s, c);
      CountCharAbsent(s, c);
    } else {
      var i := idx.value;
      var a := s[..i];
      var b := s[i + 1..];
      SplitPiecesFree(s, [c]);
      SplitAtFirst(s, [c], i);
      assert Split(s, [c])[0] == a;
      ContainsChar(a, c);
      CountCharAbsent(a, c);
      assert s[i..i + 1] == [c];
      assert s == a + ([c] + b);
      CountCharAppend(a, [c] + b, c);
      CountCharAppend([c], b, c);
      assert CountChar([c], c) == 1 by { assert [c][1..] == []; }
      SplitCount(b, c);
      assert |Split(s, [c])| == 1 + |Split(b, [c])|;
    }
  }

  /** Joining a tail of the pieces gives a suffix of the whole join. */
  lemma {:induction false} JoinTail(parts: seq<string>, j: nat, sep: string)
    requires j < |parts|
    ensures var whole := Join(parts, sep); var tail := Join(parts[j..], sep);
            |tail| <= |whole| && whole[|whole| - |tail|..] == tail
    decreases j
  {
    if j > 0 {
      JoinTail(parts[1..], j - 1, sep);
      assert parts[1..][j - 1..] == parts[j..];
      assert Join(parts, sep) == parts[0] + sep + Join(parts[1..], sep);
    }
  }

  /** A tail of the pieces that leaves out the first one follows a separator in the whole join. */
  lemma {:induction false} JoinTailSep(parts: seq<string>, j: nat, sep: string)
    requires 0 < j < |parts|
    ensures var whole := Join(parts, sep); var tail := Join(parts[j..], sep);
            |tail| + |sep| <= |whole| && whole[|whole| - |tail| - |sep|..|whole| - |tail|] == sep
  {
    var whole := Join(parts, sep);
    var tail := Join(parts[j..], sep);
    var longer := Join(parts[j - 1..], sep);
    JoinTail(parts, j - 1, sep);
    assert parts[j - 1..][1..] == parts[j..];
    assert longer == parts[j - 1] + sep + tail;
    var at := |whole| - |longer|;
    assert whole[at..] == longer;
    assert whole[at + |parts[j - 1]|..at + |parts[j - 1]| + |sep|] == longer[|parts[j - 1]|..|parts[j - 1]| + |sep|];
  }

  /** The separator character occurs in a join of separator-free pieces once per gap. */
  lemma {:induction false} CountJoin(parts: seq<string>, c: char)
    requires |parts| > 0
    requires forall k :: 0 <= k < |parts| ==> c !in parts[k]
    ensures CountChar(Join(parts, [c]), c) == |parts| - 1
    decreases |parts|
  {
    CountCharAbsent(parts[0], c);
    if |parts| > 1 {
      CountJoin(parts[1..], c);
      CountCharAppend(parts[0], [c], c);
      CountCharAppend(parts[0] + [c], Join(parts[1..], [c]), c);
    }
  }

  /** Number of bytes of the UTF-8 encoding of one rune. */
  function RuneBytes(c: char): (n: nat)
    ensures 1 <= n <= 4
  {
    if c as int < 0x80 then 1
    else if c as int < 0x800 then 2
    else if c as int < 0x10000 then 3
    else 4
  }

  /** Go's `len(s)`: the byte length of the UTF-8 encoding. */
  function ByteLen(s: string): (n: nat)
    ensures |s| <= n <= 4 * |s|
  {
    if |s| == 0 then 0 else RuneBytes(s[0]) + ByteLen(s[1..])
  }
}
