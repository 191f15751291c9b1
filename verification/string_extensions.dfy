/** StringExtensions.RemoveWhitespaces: drops carriage returns, line feeds and tabs. */
module StringExtensions {
  import opened Text

  /** The characters RemoveWhitespaces skips; every other character, the space included, is kept. */
  const LineBreaksAndTabs: set<char> := {'\r', '\n', '\t'}

  method RemoveWhitespaces(str: string) returns (r: string)
    ensures r == Without(str, LineBreaksAndTabs)
    ensures forall i :: 0 <= i < |r| ==> r[i] != '\r' && r[i] != '\n' && r[i] != '\t'
  {
    var sb := "";
    for i := 0 to |str|
      invariant sb == Without(str[..i], LineBreaksAndTabs)
    {
      var c := str[i];
      assert str[..i + 1][..i] == str[..i];
      if c == '\r' || c == '\n' || c == '\t' {
        continue;
      }
      sb := sb + [c];
    }
    assert str[..|str|] == str;
    return sb;
  }

  /** Removing twice is removing once. */
  lemma RemoveWhitespacesIdempotent(s: string)
    ensures Without(Without(s, LineBreaksAndTabs), LineBreaksAndTabs) == Without(s, LineBreaksAndTabs)
  {
    WithoutNoOp(Without(s, LineBreaksAndTabs), LineBreaksAndTabs);
  }

  /** Text without carriage returns, line feeds and tabs comes back unchanged. */
  lemma RemoveWhitespacesUnchanged(s: string)
    requires forall i :: 0 <= i < |s| ==> s[i] != '\r' && s[i] != '\n' && s[i] != '\t'
    ensures Without(s, LineBreaksAndTabs) == s
  {
    WithoutNoOp(s, LineBreaksAndTabs);
  }

  /** Removal distributes over concatenation. */
  lemma RemoveWhitespacesDistributes(a: string, b: string)
    ensures Without(a + b, LineBreaksAndTabs) == Without(a, LineBreaksAndTabs) + Without(b, LineBreaksAndTabs)
  {
    WithoutAppend(a, b, LineBreaksAndTabs);
  }

  /** The result is shorter by exactly the number of removed characters. */
  lemma {:induction false} RemoveWhitespacesLength(s: string)
    ensures |Without(s, LineBreaksAndTabs)| == |s| - CountIn(s, LineBreaksAndTabs)
    decreases |s|
  {
    if s != [] {
      RemoveWhitespacesLength(s[..|s| - 1]);
    }
  }

  /**
   * Every kept character lands at the position given by the number of kept
   * characters before it, so kept characters keep their relative order.
   */
  lemma RemoveWhitespacesKeepsOrder(s: string, i: nat)
    requires i < |s| && s[i] !in LineBreaksAndTabs
    ensures |Without(s[..i], LineBreaksAndTabs)| < |Without(s, LineBreaksAndTabs)|
    ensures Without(s, LineBreaksAndTabs)[|Without(s[..i], LineBreaksAndTabs)|] == s[i]
  {
    var before := s[..i];
    var rest := s[i + 1..];
    assert s == before + [s[i]] + rest;
    WithoutAppend(before + [s[i]], rest, LineBreaksAndTabs);
    WithoutAppend(before, [s[i]], LineBreaksAndTabs);
    assert Without([s[i]], LineBreaksAndTabs) == [s[i]] by {
      assert [s[i]][..0] == [];
    }
  }
}
