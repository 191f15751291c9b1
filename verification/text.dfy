/**
 * Text primitives shared by the encoders and the string helpers: a small
 * scanner (prefix matching and splitting at the first occurrence of a
 * delimiter), the .NET whitespace class and trimming, character filtering
 * and flattening of sequences.
 */
module Text {
  import opened Wrappers

  // ---------------------------------------------------------------------
  // Scanning
  // ---------------------------------------------------------------------

  /** The rest of `s` after the literal `lit`, when `s` starts with it. */
  function Expect(s: string, lit: string): (r: Option<string>)
    ensures r.Some? <==> lit <= s
    ensures r.Some? ==> s == lit + r.value
  {
    if lit <= s then Some(s[|lit|..]) else None
  }

  /** The delimiter `d` occurs in `s` starting at index `i`. */
  predicate OccursAt(s: string, d: string, i: nat)
  {
    i + |d| <= |s| && s[i..i + |d|] == d
  }

  /**
   * Splits `s` around the FIRST occurrence of `d`: the text before it and
   * the text after it, or None when `d` does not occur.
   */
  function SplitAt(s: string, d: string): (r: Option<(string, string)>)
    requires d != []
    ensures r.Some? ==> s == r.value.0 + d + r.value.1
    ensures r.Some? ==> forall i: nat :: i < |r.value.0| ==> !OccursAt(s, d, i)
    ensures r.None? ==> forall i: nat :: i <= |s| ==> !OccursAt(s, d, i)
    decreases |s|
  {
    if d <= s then
      assert OccursAt(s, d, 0);
      Some(([], s[|d|..]))
    else if s == [] then
      None
    else
      var tail := SplitAt(s[1..], d);
      assert forall i: nat :: 1 <= i ==> (OccursAt(s, d, i) <==> OccursAt(s[1..], d, i - 1));
      match tail
      case None => None
      case Some(p) => Some(([s[0]] + p.0, p.1))
  }

  /**
   * When the first character of `d` does not occur in `a`, splitting
   * `a + d + b` at `d` gives back exactly `a` and `b`.
   */
  lemma {:induction false} SplitAtFirst(a: string, d: string, b: string)
    requires d != [] && d[0] !in a
    ensures SplitAt(a + d + b, d) == Some((a, b))
    decreases |a|
  {
    var s := a + d + b;
    if a == [] {
      assert s == d + b;
      assert d <= s;
      assert s[|d|..] == b;
    } else {
      assert s[0] == a[0] != d[0];
      assert !(d <= s);
      assert s[1..] == a[1..] + d + b;
      SplitAtFirst(a[1..], d, b);
      assert [s[0]] + a[1..] == a;
    }
  }

  // ---------------------------------------------------------------------
  // Whitespace and trimming
  // ---------------------------------------------------------------------

  /** The characters .NET's char.IsWhiteSpace accepts, which String.Trim() removes. */
  predicate IsWhiteSpace(c: char)
  {
    || c == ' '
    || ('\t' <= c <= '\r')
    || c == '\U{0085}'
    || c == '\U{00A0}'
    || c == '\U{1680}'
    || ('\U{2000}' <= c <= '\U{200A}')
    || c == '\U{2028}'
    || c == '\U{2029}'
    || c == '\U{202F}'
    || c == '\U{205F}'
    || c == '\U{3000}'
  }

  /** The ordinary space, the only character String.TrimEnd(' ') removes. */
  predicate IsSpace(c: char)
  {
    c == ' '
  }

  /** Removes the longest prefix of characters satisfying `strip`. */
  function TrimStartBy(s: string, strip: char -> bool): (r: string)
    ensures |r| <= |s| && r == s[|s| - |r|..]
    ensures forall i :: 0 <= i < |s| - |r| ==> strip(s[i])
    ensures r != [] ==> !strip(r[0])
    decreases |s|
  {
    if s != [] && strip(s[0]) then TrimStartBy(s[1..], strip) else s
  }

  /** Removes the longest suffix of characters satisfying `strip`. */
  function TrimEndBy(s: string, strip: char -> bool): (r: string)
    ensures |r| <= |s| && r == s[..|r|]
    ensures forall i :: |r| <= i < |s| ==> strip(s[i])
    ensures r != [] ==> !strip(r[|r| - 1])
    decreases |s|
  {
    if s != [] && strip(s[|s| - 1]) then TrimEndBy(s[..|s| - 1], strip) else s
  }

  /** String.Trim(): removes leading and trailing .NET whitespace. */
  function Trim(s: string): (r: string)
    ensures r != [] ==> !IsWhiteSpace(r[0]) && !IsWhiteSpace(r[|r| - 1])
  {
    TrimEndBy(TrimStartBy(s, IsWhiteSpace), IsWhiteSpace)
  }

  // ---------------------------------------------------------------------
  // Filtering and flattening
  // ---------------------------------------------------------------------

  /** The characters of `s` that are not in `drop`, in their original order. */
  function Without(s: string, drop: set<char>): (r: string)
    ensures |r| <= |s|
    ensures forall i :: 0 <= i < |r| ==> r[i] !in drop
    decreases |s|
  {
    if s == [] then []
    else
      var last := s[|s| - 1];
      Without(s[..|s| - 1], drop) + (if last in drop then [] else [last])
  }

  /** The number of characters of `s` that are in `drop`. */
  function CountIn(s: string, drop: set<char>): nat
    decreases |s|
  {
    if s == [] then 0
    else CountIn(s[..|s| - 1], drop) + (if s[|s| - 1] in drop then 1 else 0)
  }

  /** The concatenation of all parts, in order. */
  function Flatten<T>(parts: seq<seq<T>>): seq<T>
    decreases |parts|
  {
    if parts == [] then [] else Flatten(parts[..|parts| - 1]) + parts[|parts| - 1]
  }

  lemma {:induction false} FlattenAppend<T>(a: seq<seq<T>>, b: seq<seq<T>>)
    ensures Flatten(a + b) == Flatten(a) + Flatten(b)
    decreases |b|
  {
    if b == [] {
      assert a + b == a;
    } else {
      var b' := b[..|b| - 1];
      var last := b[|b| - 1];
      assert (a + b)[..|a + b| - 1] == a + b';
      assert (a + b)[|a + b| - 1] == last;
      FlattenAppend(a, b');
      AppendAssoc(Flatten(a), Flatten(b'), last);
    }
  }

  /** The images of `xs` under `f`, appended in order with no separator. */
  function ConcatMap<T>(xs: seq<T>, f: T -> string): string
    decreases |xs|
  {
    if xs == [] then [] else ConcatMap(xs[..|xs| - 1], f) + f(xs[|xs| - 1])
  }

  lemma {:induction false} ConcatMapAppend<T>(a: seq<T>, b: seq<T>, f: T -> string)
    ensures ConcatMap(a + b, f) == ConcatMap(a, f) + ConcatMap(b, f)
    decreases |b|
  {
    if b == [] {
      assert a + b == a;
    } else {
      var b' := b[..|b| - 1];
      calc {
        ConcatMap(a + b, f);
      == { assert (a + b)[..|a + b| - 1] == a + b' && (a + b)[|a + b| - 1] == b[|b| - 1]; }
        ConcatMap(a + b', f) + f(b[|b| - 1]);
      == { ConcatMapAppend(a, b', f); }
        (ConcatMap(a, f) + ConcatMap(b', f)) + f(b[|b| - 1]);
      ==
        ConcatMap(a, f) + (ConcatMap(b', f) + f(b[|b| - 1]));
      }
    }
  }

  /** Concatenation is associative; stated once so that proofs need not rediscover it on long literals. */
  lemma AppendAssoc<T>(a: seq<T>, b: seq<T>, c: seq<T>)
    ensures (a + b) + c == a + (b + c)
  {
  }

  predicate EndsWith(s: string, k: string)
  {
    |k| <= |s| && s[|s| - |k|..] == k
  }

  /** The first five parts of a right-nested concatenation form a prefix of it. */
  lemma PrefixOfNested(a: string, b: string, c: string, d: string, e: string, t: string)
    ensures a + b + c + d + e <= a + (b + (c + (d + (e + t))))
  {
    assert a + (b + (c + (d + (e + t)))) == (a + b + c + d + e) + t;
  }

  /** A right-nested concatenation of ten parts ends with its last part. */
  lemma SuffixOfNested(a: string, b: string, c: string, d: string, e: string,
                       f: string, g: string, h: string, i: string, k: string)
    ensures EndsWith(a + (b + (c + (d + (e + (f + (g + (h + (i + k)))))))), k)
  {
    var p := a + b + c + d + e + f + g + h + i;
    assert a + (b + (c + (d + (e + (f + (g + (h + (i + k)))))))) == p + k;
    assert (p + k)[|p + k| - |k|..] == k;
  }

  /** Appending to a right-nested concatenation of ten parts appends to its last part. */
  lemma AppendToNested(a: string, b: string, c: string, d: string, e: string,
                       f: string, g: string, h: string, i: string, j: string, rest: string)
    ensures (a + (b + (c + (d + (e + (f + (g + (h + (i + j))))))))) + rest
         == a + (b + (c + (d + (e + (f + (g + (h + (i + (j + rest)))))))))
  {
  }

  /** SplitAtFirst for a right-nested concatenation. */
  lemma SplitAtFirstNested(a: string, d: string, b: string)
    requires d != [] && d[0] !in a
    ensures SplitAt(a + (d + b), d) == Some((a, b))
  {
    AppendAssoc(a, d, b);
    SplitAtFirst(a, d, b);
  }

  lemma ExpectConcat(lit: string, rest: string)
    ensures Expect(lit + rest, lit) == Some(rest)
  {
    assert (lit + rest)[|lit|..] == rest;
  }

  /** Filtering distributes over concatenation. */
  lemma {:induction false} WithoutAppend(a: string, b: string, drop: set<char>)
    ensures Without(a + b, drop) == Without(a, drop) + Without(b, drop)
    decreases |b|
  {
    if b == [] {
      assert a + b == a;
    } else {
      var b' := b[..|b| - 1];
      var last := b[|b| - 1];
      var kept := if last in drop then [] else [last];
      assert (a + b)[..|a + b| - 1] == a + b';
      assert (a + b)[|a + b| - 1] == last;
      WithoutAppend(a, b', drop);
      AppendAssoc(Without(a, drop), Without(b', drop), kept);
    }
  }

  /** Filtering text that has none of the dropped characters changes nothing. */
  lemma {:induction false} WithoutNoOp(s: string, drop: set<char>)
    requires forall i :: 0 <= i < |s| ==> s[i] !in drop
    ensures Without(s, drop) == s
    decreases |s|
  {
    if s != [] {
      WithoutNoOp(s[..|s| - 1], drop);
    }
  }
}
