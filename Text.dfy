/** String helpers: the case-insensitive `Contains` of the patient search and the string
    order used by `ThenBy` on appointment times. */
module Text {

  /** Upper-case mapping used for case-insensitive comparison (ASCII letters only). */
  function Upper(c: char): char
  {
    if 'a' <= c <= 'z' then (c as int - 32) as char else c
  }

  /** `term` occurs in `s` at offset `k`, ignoring case. */
  ghost predicate MatchesAt(s: string, term: string, k: int)
  {
    0 <= k && k + |term| <= |s| && forall i :: 0 <= i < |term| ==> Upper(s[k + i]) == Upper(term[i])
  }

  /** `s` starts with `term`, ignoring case. */
  predicate StartsWithIgnoreCase(s: string, term: string)
  {
    |term| <= |s| && forall i :: 0 <= i < |term| ==> Upper(s[i]) == Upper(term[i])
  }

  /** `s.Contains(term, StringComparison.OrdinalIgnoreCase)`: scans the offsets of `s` in turn. */
  function ContainsIgnoreCase(s: string, term: string): bool
    decreases |s|
  {
    if StartsWithIgnoreCase(s, term) then true
    else if |s| <= |term| then false
    else ContainsIgnoreCase(s[1..], term)
  }

  /** The scan finds `term` exactly when it occurs at some offset; in particular the empty
      term is found in every string. */
  lemma {:induction false} ContainsIgnoreCaseSpec(s: string, term: string)
    ensures ContainsIgnoreCase(s, term) <==> exists k :: MatchesAt(s, term, k)
    decreases |s|
  {
    if StartsWithIgnoreCase(s, term) {
      assert MatchesAt(s, term, 0);
    } else if |s| <= |term| {
      forall k | MatchesAt(s, term, k)
        ensures false
      {
        assert k == 0;
        assert StartsWithIgnoreCase(s, term);
      }
    } else {
      var t := s[1..];
      ContainsIgnoreCaseSpec(t, term);
      if ContainsIgnoreCase(t, term) {
        var k :| MatchesAt(t, term, k);
        forall i | 0 <= i < |term|
          ensures Upper(s[k + 1 + i]) == Upper(term[i])
        {
          assert s[k + 1 + i] == t[k + i];
        }
        assert MatchesAt(s, term, k + 1);
      } else {
        forall k | MatchesAt(s, term, k)
          ensures false
        {
          if k == 0 {
            assert StartsWithIgnoreCase(s, term);
          } else {
            forall i | 0 <= i < |term|
              ensures Upper(t[k - 1 + i]) == Upper(term[i])
            {
              assert t[k - 1 + i] == s[k + i];
            }
            assert MatchesAt(t, term, k - 1);
          }
        }
      }
    }
  }

  /** Ordinal (code point by code point) string order. */
  predicate OrdinalLe(a: string, b: string)
  {
    if a == [] then true
    else if b == [] then false
    else if a[0] != b[0] then a[0] < b[0]
    else OrdinalLe(a[1..], b[1..])
  }

  lemma {:induction false} OrdinalLeTotal(a: string, b: string)
    ensures OrdinalLe(a, b) || OrdinalLe(b, a)
  {
    if a != [] && b != [] && a[0] == b[0] {
      OrdinalLeTotal(a[1..], b[1..]);
    }
  }

  lemma {:induction false} OrdinalLeTransitive(a: string, b: string, c: string)
    requires OrdinalLe(a, b) && OrdinalLe(b, c)
    ensures OrdinalLe(a, c)
  {
    if a != [] && b != [] && c != [] && a[0] == b[0] && b[0] == c[0] {
      OrdinalLeTransitive(a[1..], b[1..], c[1..]);
    }
  }
}
