/** Longest-match scanning of the one regular shape every multi-character token has: `B*(JB+)*`. */
module Scanner {

  /** `s` is in `B*`. */
  predicate All(body: char -> bool, s: string) {
    forall i :: 0 <= i < |s| ==> body(s[i])
  }

  /** `s` is in `B*(JB+)*`: one run of body characters, then joiners each followed by another run. */
  predicate Joined(body: char -> bool, joiner: char -> bool, s: string) {
    || All(body, s)
    || exists k :: 0 <= k < |s| - 1 && joiner(s[k]) && body(s[k + 1])
                   && All(body, s[..k]) && Joined(body, joiner, s[k + 1..])
  }

  /** The greedy scan. */
  function Scan(body: char -> bool, joiner: char -> bool, s: string): (n: nat)
    ensures n <= |s|
  {
    if s == "" then 0
    else if body(s[0]) then 1 + Scan(body, joiner, s[1..])
    else if |s| > 1 && joiner(s[0]) && body(s[1]) then 1 + Scan(body, joiner, s[1..])
    else 0
  }

  /** A body character, or a joiner with a body character after it, both before `m`. */
  predicate Fits(body: char -> bool, joiner: char -> bool, s: string, m: nat, i: nat)
    requires i < m <= |s|
  {
    body(s[i]) || (joiner(s[i]) && i + 1 < m && body(s[i + 1]))
  }

  /** Character by character, the first `m` characters have the shape. */
  predicate Shaped(body: char -> bool, joiner: char -> bool, s: string, m: nat)
    requires m <= |s|
  {
    forall i: nat :: i < m ==> Fits(body, joiner, s, m, i)
  }

  lemma {:induction false} JoinedIsShaped(body: char -> bool, joiner: char -> bool, s: string)
    requires Joined(body, joiner, s)
    ensures Shaped(body, joiner, s, |s|)
    decreases |s|
  {
    if !All(body, s) {
      var k :| 0 <= k < |s| - 1 && joiner(s[k]) && body(s[k + 1])
               && All(body, s[..k]) && Joined(body, joiner, s[k + 1..]);
      var rest := s[k + 1..];
      JoinedIsShaped(body, joiner, rest);
      forall i: nat | i < |s|
        ensures Fits(body, joiner, s, |s|, i)
      {
        if i < k {
          assert s[..k][i] == s[i];
        } else if i > k {
          assert Fits(body, joiner, rest, |rest|, i - k - 1);
        }
      }
    }
  }

  lemma {:induction false} ShapedIsJoined(body: char -> bool, joiner: char -> bool, s: string)
    requires Shaped(body, joiner, s, |s|)
    ensures Joined(body, joiner, s)
    decreases |s|
  {
    if !All(body, s) {
      var k := FirstOutside(body, s);
      var rest := s[k + 1..];
      assert Fits(body, joiner, s, |s|, k);
      forall i: nat | i < |rest|
        ensures Fits(body, joiner, rest, |rest|, i)
      {
        assert Fits(body, joiner, s, |s|, k + 1 + i);
      }
      ShapedIsJoined(body, joiner, rest);
    }
  }

  function FirstOutside(body: char -> bool, s: string): (k: nat)
    requires !All(body, s)
    ensures k < |s| && !body(s[k]) && All(body, s[..k])
  {
    if body(s[0]) then
      var k := FirstOutside(body, s[1..]);
      assert All(body, s[..k + 1]) by {
        assert s[..k + 1] == [s[0]] + s[1..][..k];
      }
      k + 1
    else 0
  }

  lemma {:induction false} ScanIsLongestShape(body: char -> bool, joiner: char -> bool, s: string)
    ensures Shaped(body, joiner, s, Scan(body, joiner, s))
    ensures forall m :: 0 <= m <= |s| && Shaped(body, joiner, s, m) ==> m <= Scan(body, joiner, s)
    decreases |s|
  {
    if s != "" {
      var n, rest := Scan(body, joiner, s), s[1..];
      ScanIsLongestShape(body, joiner, rest);
      forall i: nat | i < n
        ensures Fits(body, joiner, s, n, i)
      {
        if i > 0 {
          assert Fits(body, joiner, rest, n - 1, i - 1);
        } else if !body(s[0]) {
          assert n > 1;
        }
      }
      forall m | 0 < m <= |s| && Shaped(body, joiner, s, m)
        ensures m <= n
      {
        assert Fits(body, joiner, s, m, 0);
        var p := m - 1;
        forall i: nat | i < p
          ensures Fits(body, joiner, rest, p, i)
        {
          assert Fits(body, joiner, s, m, i + 1);
        }
        assert Shaped(body, joiner, rest, p);
      }
    }
  }

  lemma ShapedPrefix(body: char -> bool, joiner: char -> bool, s: string, m: nat)
    requires m <= |s|
    ensures Shaped(body, joiner, s, m) <==> Shaped(body, joiner, s[..m], m)
  {
    forall i: nat | i < m
      ensures Fits(body, joiner, s, m, i) <==> Fits(body, joiner, s[..m], m, i)
    {
    }
  }

  /** A prefix is in `B*(JB+)*` exactly when it has the shape. */
  lemma JoinedPrefix(body: char -> bool, joiner: char -> bool, s: string, m: nat)
    requires m <= |s|
    ensures Joined(body, joiner, s[..m]) <==> Shaped(body, joiner, s, m)
  {
    ShapedPrefix(body, joiner, s, m);
    if Joined(body, joiner, s[..m]) {
      JoinedIsShaped(body, joiner, s[..m]);
    }
    if Shaped(body, joiner, s[..m], m) {
      ShapedIsJoined(body, joiner, s[..m]);
    }
  }

  /** The scan finds the longest prefix in `B*(JB+)*`. */
  lemma ScanIsLongest(body: char -> bool, joiner: char -> bool, s: string)
    ensures Joined(body, joiner, s[..Scan(body, joiner, s)])
    ensures forall m :: 0 <= m <= |s| && Joined(body, joiner, s[..m]) ==> m <= Scan(body, joiner, s)
  {
    ScanIsLongestShape(body, joiner, s);
    JoinedPrefix(body, joiner, s, Scan(body, joiner, s));
    forall m | 0 <= m <= |s| && Joined(body, joiner, s[..m])
      ensures m <= Scan(body, joiner, s)
    {
      JoinedPrefix(body, joiner, s, m);
    }
  }

  /** A string is in the language exactly when the scan consumes all of it. */
  lemma ScanDecides(body: char -> bool, joiner: char -> bool, s: string)
    ensures Joined(body, joiner, s) <==> Scan(body, joiner, s) == |s|
  {
    ScanIsLongest(body, joiner, s);
    assert s[..|s|] == s;
  }
}
