/** The single scanner that decides where a numeric token ends. */
module NumericScanner {
  import opened Text
  import opened Scanner
  import opened Unicode

  predicate IsSeparator(c: char) {
    c == '.' || c == ','
  }

  /** `N+([.,]N+)*`. */
  predicate IsNumeral(t: Tables, s: string) {
    s != "" && t.numeric(s[0]) && Joined(t.numeric, IsSeparator, s[1..])
  }

  function NumericPrefix(t: Tables, s: string): (n: Option<nat>)
    ensures n.Some? ==> 0 < n.value <= |s|
  {
    if s == "" || !t.numeric(s[0]) then None else Some(1 + Scan(t.numeric, IsSeparator, s[1..]))
  }

  /** The scan, with its byte cursor and one-character lookahead. */
  method NumericPrefixLen(t: Tables, source: string) returns (length: Option<nat>)
    ensures NumericPrefix(t, source).None? ==> length == None
    ensures NumericPrefix(t, source).Some? ==>
              length == Some(ByteOffset(source, NumericPrefix(t, source).value))
  {
    if source == "" || !t.numeric(source[0]) {
      return None;
    }
    var next := 1;
    var end := Utf8Width(source[0]);
    assert end == ByteOffset(source, 1);
    while true
      invariant 1 <= next <= |source| && end == ByteOffset(source, next)
      invariant next + Scan(t.numeric, IsSeparator, source[next..]) == NumericPrefix(t, source).value
      decreases |source| - next
    {
      while next < |source| && t.numeric(source[next])
        invariant 1 <= next <= |source| && end == ByteOffset(source, next)
        invariant next + Scan(t.numeric, IsSeparator, source[next..]) == NumericPrefix(t, source).value
        decreases |source| - next
      {
        assert source[next..][1..] == source[next + 1..];
        end := end + Utf8Width(source[next]);
        next := next + 1;
      }
      if next == |source| || !IsSeparator(source[next]) {
        break;
      }
      if next + 1 == |source| || !t.numeric(source[next + 1]) {
        break;
      }
      assert source[next..][1..] == source[next + 1..];
      end := end + Utf8Width(source[next]);
      next := next + 1;
    }
    return Some(end);
  }

  /** The prefix found is the longest numeral prefix, and none is found exactly when there is none. */
  lemma LongestNumeralPrefix(t: Tables, s: string)
    ensures NumericPrefix(t, s).Some? <==> exists m :: 0 <= m <= |s| && IsNumeral(t, s[..m])
    ensures NumericPrefix(t, s).Some? ==>
              var n := NumericPrefix(t, s).value;
              IsNumeral(t, s[..n]) && forall m :: 0 <= m <= |s| && IsNumeral(t, s[..m]) ==> m <= n
  {
    if s != "" {
      var rest := s[1..];
      ScanIsLongest(t.numeric, IsSeparator, rest);
      forall m | 0 < m <= |s|
        ensures s[..m][0] == s[0] && s[..m][1..] == rest[..m - 1]
      {
      }
      if NumericPrefix(t, s).Some? {
        assert IsNumeral(t, s[..NumericPrefix(t, s).value]);
      }
    }
  }

  /** Scanning the prefix again returns all of it. */
  lemma NumericPrefixIsStable(t: Tables, s: string)
    requires NumericPrefix(t, s).Some?
    ensures var n := NumericPrefix(t, s).value; NumericPrefix(t, s[..n]) == Some(n)
  {
    var n := NumericPrefix(t, s).value;
    LongestNumeralPrefix(t, s);
    NumeralIsItsOwnPrefix(t, s[..n]);
  }

  /** `is_number`: a word is a number exactly when it is a numeral. */
  predicate IsNumber(t: Tables, word: string) {
    NumericPrefix(t, word) == Some(|word|)
  }

  lemma NumeralIsItsOwnPrefix(t: Tables, word: string)
    ensures IsNumber(t, word) <==> IsNumeral(t, word)
  {
    if word != "" {
      ScanDecides(t.numeric, IsSeparator, word[1..]);
    }
  }
}
