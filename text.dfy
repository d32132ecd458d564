/** The optional value the source expresses with Python's `None`. */
module Options {
  datatype Option<+T> = None | Some(value: T)
}

/** Characters and substrings, as Python's `re` and `in` see them on the price and seller texts. */
module Text {

  /** Regex class `\d`, restricted to the ASCII digits. */
  predicate IsDigit(c: char) {
    '0' <= c <= '9'
  }

  predicate AllDigits(s: seq<char>) {
    forall i :: 0 <= i < |s| ==> IsDigit(s[i])
  }

  /** True when no character of `s` is a digit. */
  predicate NoDigit(s: seq<char>) {
    forall i :: 0 <= i < |s| ==> !IsDigit(s[i])
  }

  /** `w` occurs in `s` starting at position `p`. */
  predicate OccursAt(s: seq<char>, p: nat, w: seq<char>) {
    p + |w| <= |s| && s[p..p + |w|] == w
  }

  /** Python's `w in s` for strings, computed by scanning the start positions from `p` on. */
  function ContainsFrom(s: seq<char>, w: seq<char>, p: nat): (r: bool)
    requires p <= |s| + 1
    ensures r <==> exists q :: p <= q && OccursAt(s, q, w)
    decreases |s| + 1 - p
  {
    if p > |s| then
      assert forall q :: p <= q ==> !OccursAt(s, q, w);
      false
    else if OccursAt(s, p, w) then true
    else ContainsFrom(s, w, p + 1)
  }

  /** Python's `w in s` for strings: `w` occurs somewhere in `s`. */
  function Contains(s: seq<char>, w: seq<char>): (r: bool)
    ensures r <==> exists q :: OccursAt(s, q, w)
  {
    ContainsFrom(s, w, 0)
  }

  /** A word whose first character is missing from `s` does not occur in `s`. */
  lemma AbsentFirstChar(s: seq<char>, w: seq<char>)
    requires |w| > 0 && w[0] !in s
    ensures !Contains(s, w)
  {
    forall q: nat ensures !OccursAt(s, q, w) {
      if q + |w| <= |s| {
        assert s[q..q + |w|][0] == s[q];
      }
    }
  }
}
