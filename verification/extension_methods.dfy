/**
 * ExtensionMethods: Partition (split a sequence into fixed-size chunks) and
 * Truncate (shorten text at a word boundary and append a suffix).
 */
module ExtensionMethods {
  import opened Wrappers
  import opened Text

  /** The .NET exceptions these helpers can raise. */
  datatype Exception = IndexOutOfRangeException | OverflowException

  // ---------------------------------------------------------------------
  // Partition
  // ---------------------------------------------------------------------

  /** Reference chunking: take `size` elements at a time from the front. */
  function Chunks<T>(source: seq<T>, size: nat): (cs: seq<seq<T>>)
    requires size > 0
    ensures forall i :: 0 <= i < |cs| ==> 0 < |cs[i]| <= size
    decreases |source|
  {
    if source == [] then []
    else if |source| <= size then [source]
    else [source[..size]] + Chunks(source[size..], size)
  }

  /** Flattening a non-empty list of chunks takes the first chunk, then the rest. */
  lemma FlattenCons<T>(cs: seq<seq<T>>)
    requires cs != []
    ensures Flatten(cs) == cs[0] + Flatten(cs[1..])
  {
    assert cs == [cs[0]] + cs[1..];
    FlattenAppend([cs[0]], cs[1..]);
    assert Flatten([cs[0]]) == cs[0] by {
      assert [cs[0]][..0] == [];
    }
  }

  /**
   * The shape Partition guarantees determines the chunks: any list of
   * non-empty chunks of at most `size` elements, all but the last full,
   * that flattens to `source` is the reference chunking.
   */
  lemma {:induction false} ChunkingIsUnique<T>(source: seq<T>, size: nat, cs: seq<seq<T>>)
    requires size > 0
    requires Flatten(cs) == source
    requires forall i :: 0 <= i < |cs| ==> 0 < |cs[i]| <= size
    requires forall i :: 0 <= i < |cs| - 1 ==> |cs[i]| == size
    ensures cs == Chunks(source, size)
    decreases |cs|
  {
    if cs == [] {
    } else {
      FlattenCons(cs);
      var rest := cs[1..];
      if rest == [] {
        assert Flatten(rest) == [];
        assert source == cs[0];
      } else {
        assert Flatten(rest) == Flatten(rest[..|rest| - 1]) + rest[|rest| - 1];
        assert |cs[0]| == size;
        assert source[..size] == cs[0];
        assert source[size..] == Flatten(rest);
        ChunkingIsUnique(source[size..], size, rest);
        assert cs == [cs[0]] + rest;
      }
    }
  }

  /** A positive multiple of `b` is at least `b`. */
  lemma {:induction false} MultipleAtLeast(k: int, b: int)
    requires k >= 1 && b > 0
    ensures k * b >= b
    decreases k
  {
    if k > 1 {
      MultipleAtLeast(k - 1, b);
      assert k * b == (k - 1) * b + b;
    }
  }

  /** A multiple of `b` strictly between -b and b is zero. */
  lemma SmallMultiple(k: int, b: int)
    requires b > 0 && -b < k * b < b
    ensures k == 0
  {
    if k >= 1 {
      MultipleAtLeast(k, b);
      assert false;
    } else if k <= -1 {
      MultipleAtLeast(-k, b);
      assert false;
    }
  }

  /** A dividend smaller than the divisor has quotient zero. */
  lemma DivSmall(a: nat, b: nat)
    requires a < b
    ensures a / b == 0
  {
    var q, m := a / b, a % b;
    assert q * b == a - m;
    SmallMultiple(q, b);
  }

  /** Adding one divisor to the dividend adds one to the quotient. */
  lemma DivStep(a: nat, b: nat)
    requires b > 0
    ensures (a + b) / b == a / b + 1
  {
    var q, m := a / b, a % b;
    var q', m' := (a + b) / b, (a + b) % b;
    assert (q' - q - 1) * b == m - m';
    SmallMultiple(q' - q - 1, b);
  }

  /** Partition yields the ceiling of |source| / size chunks. */
  lemma {:induction false} ChunkCount<T>(source: seq<T>, size: nat)
    requires size > 0
    ensures |Chunks(source, size)| == (|source| + size - 1) / size
    decreases |source|
  {
    var n := |source|;
    if source == [] {
      DivSmall(size - 1, size);
    } else {
      var k := n - 1;
      DivStep(k, size);
      assert n + size - 1 == k + size;
      if n <= size {
        DivSmall(k, size);
        assert |Chunks(source, size)| == 1;
      } else {
        var rest := source[size..];
        ChunkCount(rest, size);
        assert |rest| + size - 1 == k;
        assert |Chunks(source, size)| == 1 + |Chunks(rest, size)|;
      }
    }
  }

  /**
   * Chunks of `size` elements, in order, the last one possibly shorter.
   * A negative size fails allocating the buffer; a zero size fails storing
   * the first element, so only an empty source survives it.
   */
  method Partition<T>(source: seq<T>, size: int) returns (r: Result<seq<seq<T>>, Exception>)
    ensures size < 0 ==> r == Failure(OverflowException)
    ensures size == 0 && source != [] ==> r == Failure(IndexOutOfRangeException)
    ensures size >= 0 && (size > 0 || source == []) ==> r.Success?
    ensures r.Success? ==> Flatten(r.value) == source
    ensures r.Success? ==> forall i :: 0 <= i < |r.value| ==> 0 < |r.value[i]| <= size
    ensures r.Success? ==> forall i :: 0 <= i < |r.value| - 1 ==> |r.value[i]| == size
    ensures r.Success? && size > 0 ==> r.value == Chunks(source, size)
  {
    if size < 0 {
      return Failure(OverflowException);
    }
    var partition: seq<T> := [];
    var chunks: seq<seq<T>> := [];
    for i := 0 to |source|
      invariant Flatten(chunks) + partition == source[..i]
      invariant forall j :: 0 <= j < |chunks| ==> |chunks[j]| == size
      invariant size == 0 ==> i == 0 && partition == [] && chunks == []
      invariant size > 0 ==> |partition| < size
    {
      if |partition| >= size {
        // storing into a full buffer, which only a zero-sized one is at the start
        return Failure(IndexOutOfRangeException);
      }
      var next := partition + [source[i]];
      TakeOne(source, i, Flatten(chunks), partition);
      if |next| == size {
        FlattenSnoc(chunks, next);
        chunks := chunks + [next];
        partition := [];
      } else {
        partition := next;
      }
    }
    assert source[..|source|] == source;
    if |partition| > 0 {
      FlattenSnoc(chunks, partition);
      chunks := chunks + [partition];
    } else {
      assert Flatten(chunks) + partition == Flatten(chunks);
    }
    if size > 0 {
      ChunkingIsUnique(source, size, chunks);
    }
    return Success(chunks);
  }

  /** Consuming one more element of the source. */
  lemma TakeOne<T>(source: seq<T>, i: nat, done: seq<T>, partition: seq<T>)
    requires i < |source| && done + partition == source[..i]
    ensures done + (partition + [source[i]]) == source[..i + 1]
  {
    assert source[..i + 1] == source[..i] + [source[i]];
  }

  /** Flattening one more chunk appends it. */
  lemma FlattenSnoc<T>(cs: seq<seq<T>>, c: seq<T>)
    ensures Flatten(cs + [c]) == Flatten(cs) + c
  {
    assert (cs + [c])[..|cs|] == cs;
  }

  // ---------------------------------------------------------------------
  // Truncate
  // ---------------------------------------------------------------------

  /** A word is a non-empty run of non-space characters. */
  predicate IsWord(w: string)
  {
    w != [] && forall i :: 0 <= i < |w| ==> w[i] != ' '
  }

  predicate AllWords(ws: seq<string>)
  {
    forall i :: 0 <= i < |ws| ==> IsWord(ws[i])
  }

  /** Length of the leading run of non-space characters. */
  function WordLength(s: string): (n: nat)
    ensures n <= |s|
    ensures forall i :: 0 <= i < n ==> s[i] != ' '
    ensures n < |s| ==> s[n] == ' '
    decreases |s|
  {
    if s == [] || s[0] == ' ' then 0 else 1 + WordLength(s[1..])
  }

  /** The words of `s`: splitting at single spaces and dropping empty entries. */
  function Words(s: string): (ws: seq<string>)
    ensures AllWords(ws)
    decreases |s|
  {
    if s == [] then []
    else if s[0] == ' ' then Words(s[1..])
    else
      var n := WordLength(s);
      [s[..n]] + Words(s[n..])
  }

  /** The words joined with single spaces. */
  function Join(ws: seq<string>): string
    decreases |ws|
  {
    if ws == [] then ""
    else if |ws| == 1 then ws[0]
    else ws[0] + " " + Join(ws[1..])
  }

  /** The text the builder holds after appending each word followed by a space. */
  function Terminated(ws: seq<string>): string
    decreases |ws|
  {
    if ws == [] then "" else Terminated(ws[..|ws| - 1]) + ws[|ws| - 1] + " "
  }

  /** Word `j` still fits: the builder so far plus that word is within `maxLength`. */
  predicate Fits(ws: seq<string>, maxLength: int, j: nat)
    requires j < |ws|
  {
    |Terminated(ws[..j])| + |ws[j]| <= maxLength
  }

  /** The first word from `i` on that does not fit, or |ws| if they all do. */
  function FirstMisfit(ws: seq<string>, maxLength: int, i: nat): (k: nat)
    requires i <= |ws|
    ensures i <= k <= |ws|
    ensures forall j :: i <= j < k ==> Fits(ws, maxLength, j)
    ensures k < |ws| ==> !Fits(ws, maxLength, k)
    decreases |ws| - i
  {
    if i == |ws| || !Fits(ws, maxLength, i) then i else FirstMisfit(ws, maxLength, i + 1)
  }

  /** How many leading words Truncate keeps. */
  function Kept(ws: seq<string>, maxLength: int): nat
  {
    FirstMisfit(ws, maxLength, 0)
  }

  /** Kept is the unique count whose words all fit and whose next word does not. */
  lemma KeptIsFirstMisfit(ws: seq<string>, maxLength: int, k: nat)
    requires k <= |ws|
    requires forall j :: 0 <= j < k ==> Fits(ws, maxLength, j)
    requires k < |ws| ==> !Fits(ws, maxLength, k)
    ensures Kept(ws, maxLength) == k
  {
  }

  /**
   * Text longer than `maxLength` keeps the leading words that fit (each
   * counted with its trailing space), loses the trailing spaces and gets the
   * suffix. When every word fits, or there are none, the loop reads past the
   * last word and fails. Either way the result is trimmed of white space.
   */
  method Truncate(str: string, maxLength: int, suffix: string) returns (r: Result<string, Exception>)
    ensures |str| <= maxLength ==> r == Success(Trim(str))
    ensures |str| > maxLength ==> (r.Failure? <==> Kept(Words(str), maxLength) == |Words(str)|)
    ensures r.Failure? ==> r.error == IndexOutOfRangeException
    ensures |str| > maxLength && r.Success? ==>
              r.value == Trim(Join(Words(str)[..Kept(Words(str), maxLength)]) + suffix)
    ensures |str| > maxLength && r.Success? ==> |r.value| <= |suffix| + (if maxLength > 0 then maxLength else 0)
  {
    var s := str;
    if |s| > maxLength {
      var words := Words(s);
      var sb := "";
      var i := 0;
      while i < |words| && |sb| + |words[i]| <= maxLength
        invariant 0 <= i <= |words|
        invariant sb == Terminated(words[..i])
        invariant forall j :: 0 <= j < i ==> Fits(words, maxLength, j)
        decreases |words| - i
      {
        assert words[..i + 1][..i] == words[..i];
        sb := sb + words[i] + " ";
        i := i + 1;
      }
      KeptIsFirstMisfit(words, maxLength, i);
      if i == |words| {
        // the loop condition reads words[i] past the last word
        return Failure(IndexOutOfRangeException);
      }
      TrimEndOfTerminated(words[..i]);
      KeptWordsFit(words, maxLength);
      s := TrimEndBy(sb, IsSpace) + suffix;
    }
    return Success(Trim(s));
  }

  /** Joining one more word adds a space and the word. */
  lemma {:induction false} JoinSnoc(ws: seq<string>, w: string)
    requires ws != []
    ensures Join(ws + [w]) == Join(ws) + " " + w
    decreases |ws|
  {
    if |ws| == 1 {
      assert (ws + [w])[1..] == [w];
    } else {
      assert (ws + [w])[1..] == ws[1..] + [w];
      JoinSnoc(ws[1..], w);
    }
  }

  /** The builder's text is the joined words plus one trailing space. */
  lemma {:induction false} TerminatedIsJoinPlusSpace(ws: seq<string>)
    requires ws != []
    ensures Terminated(ws) == Join(ws) + " "
    decreases |ws|
  {
    var init := ws[..|ws| - 1];
    var last := ws[|ws| - 1];
    if init == [] {
      assert ws == [last];
    } else {
      TerminatedIsJoinPlusSpace(init);
      assert ws == init + [last];
      JoinSnoc(init, last);
    }
  }

  /** Joined words neither start nor end with a space, and are not empty. */
  lemma {:induction false} JoinEnds(ws: seq<string>)
    requires ws != [] && AllWords(ws)
    ensures Join(ws) != [] && Join(ws)[0] != ' ' && Join(ws)[|Join(ws)| - 1] != ' '
    decreases |ws|
  {
    if |ws| > 1 {
      JoinEnds(ws[1..]);
      assert IsWord(ws[0]);
    } else {
      assert IsWord(ws[0]);
    }
  }

  /** Trimming the trailing spaces of the builder leaves the joined words. */
  lemma TrimEndOfTerminated(ws: seq<string>)
    requires AllWords(ws)
    ensures TrimEndBy(Terminated(ws), IsSpace) == Join(ws)
  {
    if ws != [] {
      TerminatedIsJoinPlusSpace(ws);
      JoinEnds(ws);
      var j := Join(ws);
      assert (j + " ")[..|j + " "| - 1] == j;
    }
  }

  /** One more word lengthens the builder by the word and its space. */
  lemma TerminatedStep(ws: seq<string>, j: nat)
    requires j < |ws|
    ensures |Terminated(ws[..j + 1])| == |Terminated(ws[..j])| + |ws[j]| + 1
  {
    assert ws[..j + 1][..j] == ws[..j];
  }

  /** The builder only grows. */
  lemma {:induction false} TerminatedGrows(ws: seq<string>, a: nat, b: nat)
    requires a <= b <= |ws|
    ensures |Terminated(ws[..a])| <= |Terminated(ws[..b])|
    decreases b - a
  {
    if a < b {
      TerminatedGrows(ws, a, b - 1);
      TerminatedStep(ws, b - 1);
    }
  }

  /** The kept words, joined, are never longer than `maxLength`. */
  lemma KeptWordsFit(ws: seq<string>, maxLength: int)
    ensures Kept(ws, maxLength) > 0 ==> |Join(ws[..Kept(ws, maxLength)])| <= maxLength
  {
    var k := Kept(ws, maxLength);
    if k > 0 {
      assert Fits(ws, maxLength, k - 1);
      TerminatedStep(ws, k - 1);
      TerminatedIsJoinPlusSpace(ws[..k]);
    }
  }

  /** A first word longer than `maxLength` keeps nothing, so only the suffix remains. */
  lemma FirstWordTooLong(ws: seq<string>, maxLength: int)
    requires ws != [] && |ws[0]| > maxLength
    ensures Kept(ws, maxLength) == 0
    ensures Join(ws[..Kept(ws, maxLength)]) == ""
  {
    assert ws[..0] == [];
    assert !Fits(ws, maxLength, 0);
  }

  /**
   * Truncate fails exactly when there are no words or all of them, joined by
   * single spaces, fit within `maxLength`.
   */
  lemma TruncateFailsExactly(ws: seq<string>, maxLength: int)
    ensures Kept(ws, maxLength) == |ws| <==> ws == [] || |Join(ws)| <= maxLength
  {
    var n := |ws|;
    assert ws[..n] == ws;
    if ws != [] {
      if Kept(ws, maxLength) == n {
        KeptWordsFit(ws, maxLength);
      }
      if |Join(ws)| <= maxLength {
        TerminatedIsJoinPlusSpace(ws);
        forall j | 0 <= j < n
          ensures Fits(ws, maxLength, j)
        {
          TerminatedStep(ws, j);
          TerminatedGrows(ws, j + 1, n);
        }
        KeptIsFirstMisfit(ws, maxLength, n);
      }
    }
  }

  /** A word followed by nothing or by a space is the leading run. */
  lemma WordLengthOfWord(w: string, t: string)
    requires IsWord(w) && (t == [] || t[0] == ' ')
    ensures WordLength(w + t) == |w|
  {
    var s := w + t;
    assert forall i :: 0 <= i < |w| ==> s[i] == w[i];
    assert |w| < |s| ==> s[|w|] == t[0];
  }

  /** The leading run is unchanged by what follows when it already ends inside `a` or at a space. */
  lemma WordLengthAppend(a: string, t: string)
    requires WordLength(a) < |a| || t == [] || t[0] == ' '
    ensures WordLength(a + t) == WordLength(a)
  {
    var s := a + t;
    var m := WordLength(a);
    var k := WordLength(s);
    assert forall i :: 0 <= i < |a| ==> s[i] == a[i];
    assert m < |s| ==> s[m] == ' ';
  }

  /** A single word splits into itself. */
  lemma WordsOfWord(w: string)
    requires IsWord(w)
    ensures Words(w) == [w]
  {
    WordLengthOfWord(w, []);
    assert w + [] == w;
    assert w[..|w|] == w;
    assert w[|w|..] == [];
  }

  /**
   * A space separates words: the words of `a + " " + b` are those of `a`
   * followed by those of `b`. With WordsOfWord this fixes Words on every
   * input, runs of spaces included.
   */
  lemma {:induction false} WordsSplitAtSpace(a: string, b: string)
    ensures Words(a + " " + b) == Words(a) + Words(b)
    decreases |a|
  {
    var s := a + " " + b;
    if a == [] {
      assert s[1..] == b;
    } else if a[0] == ' ' {
      assert s[1..] == a[1..] + " " + b;
      WordsSplitAtSpace(a[1..], b);
    } else {
      var m := WordLength(a);
      var rest := a[m..];
      WordLengthAppend(a, " " + b);
      assert a + (" " + b) == s;
      assert s[0] == a[0];
      assert Words(s) == [s[..m]] + Words(s[m..]);
      assert Words(a) == [a[..m]] + Words(rest);
      assert s[..m] == a[..m];
      assert s[m..] == rest + " " + b;
      WordsSplitAtSpace(rest, b);
    }
  }

  /** Splitting joined words gives the words back. */
  lemma {:induction false} WordsOfJoin(ws: seq<string>)
    requires AllWords(ws)
    ensures Words(Join(ws)) == ws
    decreases |ws|
  {
    if ws == [] {
    } else {
      var w := ws[0];
      assert IsWord(w);
      if |ws| == 1 {
        WordLengthOfWord(w, []);
        assert w + [] == w;
        assert w[|w|..] == [];
      } else {
        var rest := Join(ws[1..]);
        var s := w + (" " + rest);
        assert Join(ws) == s;
        WordLengthOfWord(w, " " + rest);
        assert s[..|w|] == w;
        assert s[|w|..] == " " + rest;
        assert (" " + rest)[1..] == rest;
        WordsOfJoin(ws[1..]);
        assert ws == [w] + ws[1..];
      }
    }
  }

  /** The words hold every non-space character of the text, in order. */
  lemma {:induction false} WordsKeepNonSpace(s: string)
    ensures Flatten(Words(s)) == Without(s, {' '})
    decreases |s|
  {
    if s == [] {
    } else if s[0] == ' ' {
      WordsKeepNonSpace(s[1..]);
      assert s == [' '] + s[1..];
      WithoutAppend([' '], s[1..], {' '});
      assert Without([' '], {' '}) == [] by {
        assert [' '][..0] == [];
      }
    } else {
      var n := WordLength(s);
      WordsKeepNonSpace(s[n..]);
      assert s == s[..n] + s[n..];
      WithoutAppend(s[..n], s[n..], {' '});
      WithoutNoOp(s[..n], {' '});
      FlattenCons([s[..n]] + Words(s[n..]));
      assert ([s[..n]] + Words(s[n..]))[1..] == Words(s[n..]);
    }
  }

  /**
   * Joined words hold single spaces only: every space sits strictly inside
   * the text between two non-space characters, so runs of spaces in the
   * input collapse to one.
   */
  lemma {:induction false} JoinSingleSpaces(ws: seq<string>)
    requires AllWords(ws)
    ensures forall i :: 0 <= i < |Join(ws)| && Join(ws)[i] == ' ' ==>
              0 < i < |Join(ws)| - 1 && Join(ws)[i - 1] != ' ' && Join(ws)[i + 1] != ' '
    decreases |ws|
  {
    if |ws| == 1 {
      assert IsWord(ws[0]);
    } else if |ws| > 1 {
      var w := ws[0];
      var j := Join(ws[1..]);
      var s := w + " " + j;
      assert IsWord(w);
      assert Join(ws) == s;
      JoinSingleSpaces(ws[1..]);
      JoinEnds(ws[1..]);
      forall i | 0 <= i < |s| && s[i] == ' '
        ensures 0 < i < |s| - 1 && s[i - 1] != ' ' && s[i + 1] != ' '
      {
        if i > |w| {
          assert s[i] == j[i - |w| - 1];
          assert s[i - 1] == (if i - 1 == |w| then ' ' else j[i - |w| - 2]);
          assert i + 1 < |s| ==> s[i + 1] == j[i - |w|];
        } else {
          assert forall k :: 0 <= k < |w| ==> s[k] == w[k];
          assert s[i + 1] == j[0];
        }
      }
    }
  }
}
