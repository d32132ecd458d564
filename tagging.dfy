/**
 * Condition and seller-type tags read from a listing's seller text
 * (data.py:137-153). The source joins a fixed vocabulary into one regular
 * expression alternation and keeps the first match of `str.extract`. With
 * Python's `re` the match starts at the leftmost position where some term
 * occurs, and at that position the alternative listed first wins, even when a
 * later, longer term occurs there too.
 */
module Tagging {
  import opened Options
  import opened Text

  /** The condition labels, in the order of the alternation (data.py:137-143). */
  const Conditions: seq<seq<char>> := [
    "Neu", "Brandneu", "Neuwertig", "Sehr gut", "Gut", "Akzeptabel", "Neu mit Etikett",
    "Neu ohne Etikett", "Neu mit Fehlern", "Neu: Sonstige (siehe Artikelbeschreibung)",
    "Zertifiziert - Refurbished", "Neu mit Karton", "Neu ohne Karton", "Neu mit Fehlern",
    "Hervorragend - Refurbished", "Sehr gut - Refurbished", "Gut - Refurbished",
    "Vom Verkäufer generalüberholt", "Gebraucht", "Als Ersatzteil / defekt", "Repariert",
    "Gebraucht / Artikel wurde bereits benutzt", "Runderneuert", "Beschädigt", "Digitale Ware",
    "Bewertet", "Nicht bewertet"]

  /** The seller types, in the order of their alternation (data.py:145). */
  const SellerTypes: seq<seq<char>> := ["Privat", "Gewerblich"]

  /** A match of the alternation: where it starts and which alternative matched. */
  datatype Hit = Hit(pos: nat, index: nat)

  // ---------------------------------------------------------------------------
  // The alternation as Python's `re` runs it (as written)
  // ---------------------------------------------------------------------------

  /** The alternatives vocab[k..] tried in list order at position p: the first that matches. */
  function FirstAlternativeAt(s: seq<char>, vocab: seq<seq<char>>, p: nat, k: nat): (r: Option<nat>)
    requires k <= |vocab|
    ensures r.Some? ==> k <= r.value < |vocab| && OccursAt(s, p, vocab[r.value])
    ensures r.Some? ==> forall j :: k <= j < r.value ==> !OccursAt(s, p, vocab[j])
    ensures r.None? <==> forall j :: k <= j < |vocab| ==> !OccursAt(s, p, vocab[j])
    decreases |vocab| - k
  {
    if k == |vocab| then None
    else if OccursAt(s, p, vocab[k]) then Some(k)
    else FirstAlternativeAt(s, vocab, p, k + 1)
  }

  /**
   * `re.search` of the alternation in s from position p on: the leftmost
   * position where any alternative matches, and there the first alternative.
   */
  function SearchFrom(s: seq<char>, vocab: seq<seq<char>>, p: nat): (r: Option<Hit>)
    requires p <= |s|
    ensures r.None? <==> forall q, j :: p <= q <= |s| && 0 <= j < |vocab| ==> !OccursAt(s, q, vocab[j])
    ensures r.Some? ==> p <= r.value.pos <= |s| && r.value.index < |vocab|
    ensures r.Some? ==> OccursAt(s, r.value.pos, vocab[r.value.index])
    ensures r.Some? ==> forall q, j :: p <= q < r.value.pos && 0 <= j < |vocab| ==> !OccursAt(s, q, vocab[j])
    ensures r.Some? ==> forall j :: 0 <= j < r.value.index ==> !OccursAt(s, r.value.pos, vocab[j])
    decreases |s| + 1 - p
  {
    match FirstAlternativeAt(s, vocab, p, 0)
    case Some(k) => Some(Hit(p, k))
    case None =>
      if p == |s| then None
      else
        var r := SearchFrom(s, vocab, p + 1);
        assert r.None? ==> forall q, j :: p <= q <= |s| && 0 <= j < |vocab| ==> !OccursAt(s, q, vocab[j]) by {
          if r.None? {
            forall q, j | p <= q <= |s| && 0 <= j < |vocab| ensures !OccursAt(s, q, vocab[j]) {
              if q > p {
                assert p + 1 <= q;
              }
            }
          }
        }
        r
  }

  /**
   * `Series.str.extract('(' + alternation + ')')` on one seller text: the
   * matched term, or None. The choice is SearchFrom's: the leftmost position
   * where some term occurs, and there the first term listed.
   */
  function FirstMatch(s: seq<char>, vocab: seq<seq<char>>): (r: Option<seq<char>>)
    ensures r.None? <==> forall j :: 0 <= j < |vocab| ==> !Contains(s, vocab[j])
    ensures r.Some? ==> r.value in vocab && Contains(s, r.value)
    ensures r.Some? ==>
      exists p: nat, k ::
        && 0 <= k < |vocab| && r.value == vocab[k] && OccursAt(s, p, vocab[k])
        && (forall q, j :: 0 <= q < p && 0 <= j < |vocab| ==> !OccursAt(s, q, vocab[j]))
        && (forall j :: 0 <= j < k ==> !OccursAt(s, p, vocab[j]))
  {
    match SearchFrom(s, vocab, 0)
    case None => None
    case Some(h) => Some(vocab[h.index])
  }

  /**
   * A term listed after one of its own prefixes is never reported: wherever it
   * occurs, the shorter, earlier term occurs at the same position and wins.
   */
  lemma ShadowedNeverReported(s: seq<char>, vocab: seq<seq<char>>, i: nat, j: nat)
    requires i < j < |vocab|
    requires IsPrefix(vocab[i], vocab[j])
    ensures SearchFrom(s, vocab, 0).Some? ==> SearchFrom(s, vocab, 0).value.index != j
  {
    match SearchFrom(s, vocab, 0)
    case None =>
    case Some(h) =>
      if h.index == j {
        PrefixOccurs(s, h.pos, vocab[j], vocab[i]);
      }
  }

  /**
   * Eleven alternatives (ten distinct labels, "Neu mit Fehlern" being listed
   * twice) are dead: each is listed after one of its own prefixes ("Neu",
   * "Sehr gut", "Gut" or "Gebraucht"), so the alternation as written never
   * reports them, whatever the seller text. Indices count from 0.
   */
  lemma ShadowedConditions(s: seq<char>)
    ensures SearchFrom(s, Conditions, 0).Some? ==>
      SearchFrom(s, Conditions, 0).value.index !in {2, 6, 7, 8, 9, 11, 12, 13, 15, 16, 21}
  {
    ConditionPrefixes();
    ShadowedNeverReported(s, Conditions, 0, 2);
    ShadowedNeverReported(s, Conditions, 0, 6);
    ShadowedNeverReported(s, Conditions, 0, 7);
    ShadowedNeverReported(s, Conditions, 0, 8);
    ShadowedNeverReported(s, Conditions, 0, 9);
    ShadowedNeverReported(s, Conditions, 0, 11);
    ShadowedNeverReported(s, Conditions, 0, 12);
    ShadowedNeverReported(s, Conditions, 0, 13);
    ShadowedNeverReported(s, Conditions, 3, 15);
    ShadowedNeverReported(s, Conditions, 4, 16);
    ShadowedNeverReported(s, Conditions, 18, 21);
  }

  /** The prefix relations between condition labels behind the dead alternatives. */
  lemma ConditionPrefixes()
    ensures IsPrefix(Conditions[0], Conditions[2]) && IsPrefix(Conditions[0], Conditions[6])
    ensures IsPrefix(Conditions[0], Conditions[7]) && IsPrefix(Conditions[0], Conditions[8])
    ensures IsPrefix(Conditions[0], Conditions[9]) && IsPrefix(Conditions[0], Conditions[11])
    ensures IsPrefix(Conditions[0], Conditions[12]) && IsPrefix(Conditions[0], Conditions[13])
    ensures IsPrefix(Conditions[3], Conditions[15]) && IsPrefix(Conditions[4], Conditions[16])
    ensures IsPrefix(Conditions[18], Conditions[21])
  {
    NeuPrefixes(2);
    NeuPrefixes(6);
    NeuPrefixes(7);
    NeuPrefixes(8);
    NeuPrefixes(9);
    NeuPrefixes(11);
    NeuPrefixes(12);
    NeuPrefixes(13);
    OtherPrefixes();
  }

  lemma NeuPrefixes(j: nat)
    requires j in {2, 6, 7, 8, 9, 11, 12, 13}
    ensures IsPrefix(Conditions[0], Conditions[j])
  {
    var w := Conditions[j];
    assert w[0] == 'N' && w[1] == 'e' && w[2] == 'u';
    assert w[..3] == Conditions[0];
  }

  lemma OtherPrefixes()
    ensures IsPrefix(Conditions[3], Conditions[15])
    ensures IsPrefix(Conditions[4], Conditions[16])
    ensures IsPrefix(Conditions[18], Conditions[21])
  {
    SehrGutPrefix();
    GutPrefix();
    GebrauchtPrefix();
  }

  lemma SehrGutPrefix()
    ensures IsPrefix(Conditions[3], Conditions[15])
  {
    var w := Conditions[15];
    assert w[..8] == Conditions[3];
  }

  lemma GutPrefix()
    ensures IsPrefix(Conditions[4], Conditions[16])
  {
    var w := Conditions[16];
    assert w[..3] == Conditions[4];
  }

  lemma GebrauchtPrefix()
    ensures IsPrefix(Conditions[18], Conditions[21])
  {
    var u, w := Conditions[18], Conditions[21];
    assert |u| == 9 && |w| >= 9;
    assert w[0] == u[0] && w[1] == u[1] && w[2] == u[2] && w[3] == u[3] && w[4] == u[4];
    assert w[5] == u[5] && w[6] == u[6] && w[7] == u[7] && w[8] == u[8];
    assert w[..9] == u;
  }

  /** u is a prefix of w. */
  predicate IsPrefix(u: seq<char>, w: seq<char>) {
    |u| <= |w| && w[..|u|] == u
  }

  /** Where a word occurs, so does each of its prefixes. */
  lemma PrefixOccurs(s: seq<char>, p: nat, w: seq<char>, u: seq<char>)
    requires OccursAt(s, p, w)
    requires IsPrefix(u, w)
    ensures OccursAt(s, p, u)
  {
    assert s[p..p + |u|] == s[p..p + |w|][..|u|];
  }

  // ---------------------------------------------------------------------------
  // Longest match at the leftmost position (the evidently intended rule)
  // ---------------------------------------------------------------------------

  /**
   * Among the alternatives vocab[k..] that occur at p, the longest; among
   * equally long ones, the first listed.
   */
  function LongestAlternativeAt(s: seq<char>, vocab: seq<seq<char>>, p: nat, k: nat): (r: Option<nat>)
    requires k <= |vocab|
    ensures r.None? <==> forall j :: k <= j < |vocab| ==> !OccursAt(s, p, vocab[j])
    ensures r.Some? ==> k <= r.value < |vocab| && OccursAt(s, p, vocab[r.value])
    ensures r.Some? ==> forall j :: k <= j < |vocab| && OccursAt(s, p, vocab[j]) ==> |vocab[j]| <= |vocab[r.value]|
    ensures r.Some? ==> forall j :: k <= j < r.value && OccursAt(s, p, vocab[j]) ==> |vocab[j]| < |vocab[r.value]|
    decreases |vocab| - k
  {
    if k == |vocab| then None
    else
      var rest := LongestAlternativeAt(s, vocab, p, k + 1);
      if OccursAt(s, p, vocab[k]) && (rest.None? || |vocab[rest.value]| <= |vocab[k]|) then Some(k)
      else rest
  }

  /**
   * w stands at the leftmost position where any term occurs, and every term
   * occurring at that position is a prefix of w: w is the full label there.
   */
  ghost predicate LeftmostLongest(s: seq<char>, vocab: seq<seq<char>>, w: seq<char>) {
    exists p: nat ::
      && OccursAt(s, p, w)
      && (forall q, j :: 0 <= q < p && 0 <= j < |vocab| ==> !OccursAt(s, q, vocab[j]))
      && (forall j :: 0 <= j < |vocab| && OccursAt(s, p, vocab[j]) ==> IsPrefix(vocab[j], w))
  }

  /** Tagging that starts at the leftmost occurrence like `re`, but there takes the longest term. */
  function LongestMatch(s: seq<char>, vocab: seq<seq<char>>): (r: Option<seq<char>>)
    ensures r.None? <==> forall j :: 0 <= j < |vocab| ==> !Contains(s, vocab[j])
    ensures r.Some? ==> r.value in vocab && Contains(s, r.value)
    ensures r.Some? ==> LeftmostLongest(s, vocab, r.value)
  {
    match SearchFrom(s, vocab, 0)
    case None => None
    case Some(h) =>
      match LongestAlternativeAt(s, vocab, h.pos, 0)
      case Some(k) =>
        LongestAtHit(s, vocab, h.pos);
        Some(vocab[k])
      case None => assert false; None
  }

  /** At a position where some term occurs, the longest term there extends every term there. */
  lemma LongestAtHit(s: seq<char>, vocab: seq<seq<char>>, p: nat)
    ensures LongestAlternativeAt(s, vocab, p, 0).Some? ==>
      forall j :: 0 <= j < |vocab| && OccursAt(s, p, vocab[j]) ==>
        IsPrefix(vocab[j], vocab[LongestAlternativeAt(s, vocab, p, 0).value])
  {
    forall j | 0 <= j < |vocab| && OccursAt(s, p, vocab[j])
      ensures IsPrefix(vocab[j], vocab[LongestAlternativeAt(s, vocab, p, 0).value])
    {
      LongestExtendsAt(s, vocab, p, j);
    }
  }

  /** Where the term vocab[i] occurs, the longest term occurring there extends it. */
  lemma LongestExtendsAt(s: seq<char>, vocab: seq<seq<char>>, p: nat, i: nat)
    requires i < |vocab| && OccursAt(s, p, vocab[i])
    ensures LongestAlternativeAt(s, vocab, p, 0).Some?
    ensures IsPrefix(vocab[i], vocab[LongestAlternativeAt(s, vocab, p, 0).value])
  {
    var w := vocab[LongestAlternativeAt(s, vocab, p, 0).value];
    assert |vocab[i]| <= |w|;
    assert s[p..p + |vocab[i]|] == s[p..p + |w|][..|vocab[i]|];
  }

  /**
   * The as-written and the longest-match tagging agree on absence, and where
   * they tag, the longest-match tag extends the as-written one.
   */
  lemma LongestMatchExtendsFirst(s: seq<char>, vocab: seq<seq<char>>)
    ensures FirstMatch(s, vocab).None? <==> LongestMatch(s, vocab).None?
    ensures FirstMatch(s, vocab).Some? ==> IsPrefix(FirstMatch(s, vocab).value, LongestMatch(s, vocab).value)
  {
    match SearchFrom(s, vocab, 0)
    case None =>
    case Some(h) =>
      LongestExtendsAt(s, vocab, h.pos, h.index);
  }

  /** No term of the vocabulary is a prefix of a different term. */
  predicate PrefixFree(vocab: seq<seq<char>>) {
    forall i, j :: 0 <= i < |vocab| && 0 <= j < |vocab| && IsPrefix(vocab[i], vocab[j]) ==> vocab[i] == vocab[j]
  }

  /** For a prefix-free vocabulary the order of the alternatives does not matter: both rules agree. */
  lemma PrefixFreeAgree(s: seq<char>, vocab: seq<seq<char>>)
    requires PrefixFree(vocab)
    ensures FirstMatch(s, vocab) == LongestMatch(s, vocab)
  {
    match SearchFrom(s, vocab, 0)
    case None =>
    case Some(h) =>
      LongestExtendsAt(s, vocab, h.pos, h.index);
  }

  lemma SellerTypesPrefixFree()
    ensures PrefixFree(SellerTypes)
  {
    assert SellerTypes[0][..|SellerTypes[0]|] == SellerTypes[0];
    assert SellerTypes[1][..|SellerTypes[1]|] == SellerTypes[1];
    assert SellerTypes[1][..|SellerTypes[0]|] != SellerTypes[0] by {
      assert SellerTypes[1][..|SellerTypes[0]|][0] != SellerTypes[0][0];
    }
  }

  // ---------------------------------------------------------------------------
  // The two tags
  // ---------------------------------------------------------------------------

  /**
   * Condition tag of a seller text as data.py:152 extracts it: the first
   * listed label at the leftmost occurrence, so never one of the shadowed
   * labels.
   */
  function Condition(seller: seq<char>): (r: Option<seq<char>>)
    ensures r.None? <==> forall j :: 0 <= j < |Conditions| ==> !Contains(seller, Conditions[j])
    ensures r.Some? ==> r.value in Conditions && Contains(seller, r.value)
    ensures r.Some? ==> exists j :: 0 <= j < |Conditions| && j !in {2, 6, 7, 8, 9, 11, 12, 13, 15, 16, 21} && r.value == Conditions[j]
  {
    var r := FirstMatch(seller, Conditions);
    ShadowedConditions(seller);
    assert r.Some? ==> r.value == Conditions[SearchFrom(seller, Conditions, 0).value.index];
    r
  }

  /**
   * The evidently intended condition tag: at the leftmost occurrence, the
   * full label, which extends every label occurring there. It is absent
   * exactly when the as-written tag is, and otherwise extends it.
   */
  function IntendedCondition(seller: seq<char>): (r: Option<seq<char>>)
    ensures r.None? <==> forall j :: 0 <= j < |Conditions| ==> !Contains(seller, Conditions[j])
    ensures r.Some? ==> r.value in Conditions && Contains(seller, r.value)
    ensures r.None? <==> Condition(seller).None?
    ensures r.Some? ==> IsPrefix(Condition(seller).value, r.value)
    ensures r.Some? ==> LeftmostLongest(seller, Conditions, r.value)
  {
    LongestMatchExtendsFirst(seller, Conditions);
    LongestMatch(seller, Conditions)
  }

  /** Seller-type tag of a seller text (data.py:153): "Privat", "Gewerblich" or None. */
  function SellerType(seller: seq<char>): (r: Option<seq<char>>)
    ensures r.None? <==> !Contains(seller, "Privat") && !Contains(seller, "Gewerblich")
    ensures r.Some? ==> r.value == "Privat" || r.value == "Gewerblich"
    ensures r.Some? ==> Contains(seller, r.value)
    ensures r == LongestMatch(seller, SellerTypes)
  {
    SellerTypesPrefixFree();
    PrefixFreeAgree(seller, SellerTypes);
    FirstMatch(seller, SellerTypes)
  }

  // ---------------------------------------------------------------------------
  // Examples
  // ---------------------------------------------------------------------------

  /** A word that differs from s at one of its positions does not occur there. */
  lemma Mismatch(s: seq<char>, p: nat, w: seq<char>, i: nat)
    requires i < |w| && p + i < |s| && s[p + i] != w[i]
    ensures !OccursAt(s, p, w)
  {
  }

  /** A word whose first two characters never stand side by side in s does not occur in s. */
  lemma AbsentFirstTwo(s: seq<char>, w: seq<char>)
    requires |w| >= 2
    requires forall q :: 0 <= q < |s| - 1 ==> !(s[q] == w[0] && s[q + 1] == w[1])
    ensures !Contains(s, w)
  {
    forall q: nat ensures !OccursAt(s, q, w) {
      if q + |w| <= |s| {
        assert s[q..q + |w|][0] == s[q] && s[q..q + |w|][1] == s[q + 1];
      }
    }
  }

  /** A word too long to fit after position p does not occur there. */
  lemma TooLong(s: seq<char>, p: nat, w: seq<char>)
    requires p + |w| > |s|
    ensures !OccursAt(s, p, w)
  {
  }

  /**
   * When exactly two terms occur at p, a shorter one listed first and a longer
   * one listed later, the alternation reports the first and the longest-match
   * rule the second.
   */
  lemma TwoCandidatesAt(s: seq<char>, vocab: seq<seq<char>>, p: nat, a: nat, b: nat)
    requires a < b < |vocab| && |vocab[a]| < |vocab[b]|
    requires OccursAt(s, p, vocab[a]) && OccursAt(s, p, vocab[b])
    requires forall j :: 0 <= j < |vocab| && j != a && j != b ==> !OccursAt(s, p, vocab[j])
    ensures FirstAlternativeAt(s, vocab, p, 0) == Some(a)
    ensures LongestAlternativeAt(s, vocab, p, 0) == Some(b)
  {
    var f := FirstAlternativeAt(s, vocab, p, 0).value;
    assert f <= a;
    var r := LongestAlternativeAt(s, vocab, p, 0).value;
    assert |vocab[b]| <= |vocab[r]|;
  }

  /**
   * "Neu mit Etikett" is tagged "Neu" (Conditions[0]) by the alternation as
   * written; the longest-match rule tags it with its own label (Conditions[6]).
   */
  lemma NeuMitEtikettExample(s: seq<char>)
    requires s == "Neu mit Etikett"
    ensures Condition(s) == Some(Conditions[0])
    ensures IntendedCondition(s) == Some(Conditions[6])
  {
    assert OccursAt(s, 0, Conditions[0]) && OccursAt(s, 0, Conditions[6]);
    NeuMitEtikettOnly0(s);
    NeuMitEtikettOnly7(s);
    NeuMitEtikettOnly14(s);
    NeuMitEtikettOnly21(s);
    TwoCandidatesAt(s, Conditions, 0, 0, 6);
  }

  /** The as-written tag of "Neu mit Etikett", "Neu", is not the full label at its position. */
  lemma NeuIsNotFullLabel(s: seq<char>)
    requires s == "Neu mit Etikett"
    ensures !LeftmostLongest(s, Conditions, Conditions[0])
  {
    assert OccursAt(s, 0, Conditions[0]) && OccursAt(s, 0, Conditions[6]);
    assert |Conditions[6]| > |Conditions[0]|;
  }

  /**
   * "Sehr gut - Refurbished" is tagged "Sehr gut" (Conditions[3]) by the
   * alternation as written, and "Sehr gut - Refurbished" (Conditions[15]) by
   * the longest-match rule.
   */
  lemma SehrGutRefurbishedExample(s: seq<char>)
    requires s == "Sehr gut - Refurbished"
    ensures Condition(s) == Some(Conditions[3])
    ensures IntendedCondition(s) == Some(Conditions[15])
  {
    assert OccursAt(s, 0, Conditions[3]) && OccursAt(s, 0, Conditions[15]);
    SehrGutRefurbishedOnly0(s);
    SehrGutRefurbishedOnly7(s);
    SehrGutRefurbishedOnly14(s);
    SehrGutRefurbishedOnly21(s);
    TwoCandidatesAt(s, Conditions, 0, 3, 15);
  }

  // Which condition labels can stand at the start of the two example texts, a few labels at a time.

  lemma NeuMitEtikettOnly0(s: seq<char>)
    requires s == "Neu mit Etikett"
    ensures forall j :: 0 <= j < 7 && j != 0 && j != 6 ==> !OccursAt(s, 0, Conditions[j])
  {
    forall j | 0 <= j < 7 && j != 0 && j != 6 ensures !OccursAt(s, 0, Conditions[j]) {
      if j == 1 {
        Mismatch(s, 0, Conditions[1], 0);
      } else if j == 2 {
        Mismatch(s, 0, Conditions[2], 3);
      } else if j == 3 {
        Mismatch(s, 0, Conditions[3], 0);
      } else if j == 4 {
        Mismatch(s, 0, Conditions[4], 0);
      } else if j == 5 {
        Mismatch(s, 0, Conditions[5], 0);
      }
    }
  }

  lemma NeuMitEtikettOnly7(s: seq<char>)
    requires s == "Neu mit Etikett"
    ensures forall j :: 7 <= j < 14 && j != 0 && j != 6 ==> !OccursAt(s, 0, Conditions[j])
  {
    forall j | 7 <= j < 14 && j != 0 && j != 6 ensures !OccursAt(s, 0, Conditions[j]) {
      if j == 7 {
        TooLong(s, 0, Conditions[7]);
      } else if j == 8 {
        Mismatch(s, 0, Conditions[8], 8);
      } else if j == 9 {
        TooLong(s, 0, Conditions[9]);
      } else if j == 10 {
        TooLong(s, 0, Conditions[10]);
      } else if j == 11 {
        Mismatch(s, 0, Conditions[11], 8);
      } else if j == 12 {
        Mismatch(s, 0, Conditions[12], 4);
      } else if j == 13 {
        Mismatch(s, 0, Conditions[13], 8);
      }
    }
  }

  lemma NeuMitEtikettOnly14(s: seq<char>)
    requires s == "Neu mit Etikett"
    ensures forall j :: 14 <= j < 21 && j != 0 && j != 6 ==> !OccursAt(s, 0, Conditions[j])
  {
    forall j | 14 <= j < 21 && j != 0 && j != 6 ensures !OccursAt(s, 0, Conditions[j]) {
      if j == 14 {
        TooLong(s, 0, Conditions[14]);
      } else if j == 15 {
        TooLong(s, 0, Conditions[15]);
      } else if j == 16 {
        TooLong(s, 0, Conditions[16]);
      } else if j == 17 {
        TooLong(s, 0, Conditions[17]);
      } else if j == 18 {
        Mismatch(s, 0, Conditions[18], 0);
      } else if j == 19 {
        TooLong(s, 0, Conditions[19]);
      } else if j == 20 {
        Mismatch(s, 0, Conditions[20], 0);
      }
    }
  }

  lemma NeuMitEtikettOnly21(s: seq<char>)
    requires s == "Neu mit Etikett"
    ensures forall j :: 21 <= j < 27 && j != 0 && j != 6 ==> !OccursAt(s, 0, Conditions[j])
  {
    forall j | 21 <= j < 27 && j != 0 && j != 6 ensures !OccursAt(s, 0, Conditions[j]) {
      if j == 21 {
        TooLong(s, 0, Conditions[21]);
      } else if j == 22 {
        Mismatch(s, 0, Conditions[22], 0);
      } else if j == 23 {
        Mismatch(s, 0, Conditions[23], 0);
      } else if j == 24 {
        Mismatch(s, 0, Conditions[24], 0);
      } else if j == 25 {
        Mismatch(s, 0, Conditions[25], 0);
      } else if j == 26 {
        Mismatch(s, 0, Conditions[26], 1);
      }
    }
  }

  lemma SehrGutRefurbishedOnly0(s: seq<char>)
    requires s == "Sehr gut - Refurbished"
    ensures forall j :: 0 <= j < 7 && j != 3 && j != 15 ==> !OccursAt(s, 0, Conditions[j])
  {
    forall j | 0 <= j < 7 && j != 3 && j != 15 ensures !OccursAt(s, 0, Conditions[j]) {
      if j == 0 {
        Mismatch(s, 0, Conditions[0], 0);
      } else if j == 1 {
        Mismatch(s, 0, Conditions[1], 0);
      } else if j == 2 {
        Mismatch(s, 0, Conditions[2], 0);
      } else if j == 4 {
        Mismatch(s, 0, Conditions[4], 0);
      } else if j == 5 {
        Mismatch(s, 0, Conditions[5], 0);
      } else if j == 6 {
        Mismatch(s, 0, Conditions[6], 0);
      }
    }
  }

  lemma SehrGutRefurbishedOnly7(s: seq<char>)
    requires s == "Sehr gut - Refurbished"
    ensures forall j :: 7 <= j < 14 && j != 3 && j != 15 ==> !OccursAt(s, 0, Conditions[j])
  {
    forall j | 7 <= j < 14 && j != 3 && j != 15 ensures !OccursAt(s, 0, Conditions[j]) {
      if j == 7 {
        Mismatch(s, 0, Conditions[7], 0);
      } else if j == 8 {
        Mismatch(s, 0, Conditions[8], 0);
      } else if j == 9 {
        TooLong(s, 0, Conditions[9]);
      } else if j == 10 {
        TooLong(s, 0, Conditions[10]);
      } else if j == 11 {
        Mismatch(s, 0, Conditions[11], 0);
      } else if j == 12 {
        Mismatch(s, 0, Conditions[12], 0);
      } else if j == 13 {
        Mismatch(s, 0, Conditions[13], 0);
      }
    }
  }

  lemma SehrGutRefurbishedOnly14(s: seq<char>)
    requires s == "Sehr gut - Refurbished"
    ensures forall j :: 14 <= j < 21 && j != 3 && j != 15 ==> !OccursAt(s, 0, Conditions[j])
  {
    forall j | 14 <= j < 21 && j != 3 && j != 15 ensures !OccursAt(s, 0, Conditions[j]) {
      if j == 14 {
        TooLong(s, 0, Conditions[14]);
      } else if j == 16 {
        Mismatch(s, 0, Conditions[16], 0);
      } else if j == 17 {
        TooLong(s, 0, Conditions[17]);
      } else if j == 18 {
        Mismatch(s, 0, Conditions[18], 0);
      } else if j == 19 {
        TooLong(s, 0, Conditions[19]);
      } else if j == 20 {
        Mismatch(s, 0, Conditions[20], 0);
      }
    }
  }

  lemma SehrGutRefurbishedOnly21(s: seq<char>)
    requires s == "Sehr gut - Refurbished"
    ensures forall j :: 21 <= j < 27 && j != 3 && j != 15 ==> !OccursAt(s, 0, Conditions[j])
  {
    forall j | 21 <= j < 27 && j != 3 && j != 15 ensures !OccursAt(s, 0, Conditions[j]) {
      if j == 21 {
        TooLong(s, 0, Conditions[21]);
      } else if j == 22 {
        Mismatch(s, 0, Conditions[22], 0);
      } else if j == 23 {
        Mismatch(s, 0, Conditions[23], 0);
      } else if j == 24 {
        Mismatch(s, 0, Conditions[24], 0);
      } else if j == 25 {
        Mismatch(s, 0, Conditions[25], 0);
      } else if j == 26 {
        Mismatch(s, 0, Conditions[26], 0);
      }
    }
  }

  /** No condition label occurs in the sentinel "Not provided". */
  lemma SentinelHasNoCondition(s: seq<char>)
    requires s == "Not provided"
    ensures forall j :: 0 <= j < |Conditions| ==> !Contains(s, Conditions[j])
  {
    SentinelHasNoCondition0(s);
    SentinelHasNoCondition7(s);
    SentinelHasNoCondition14(s);
    SentinelHasNoCondition21(s);
  }

  lemma SentinelHasNoCondition0(s: seq<char>)
    requires s == "Not provided"
    ensures forall j :: 0 <= j < 7 ==> !Contains(s, Conditions[j])
  {
    forall j | 0 <= j < 7 ensures !Contains(s, Conditions[j]) {
      if j == 0 {
        AbsentFirstTwo(s, Conditions[0]);
      } else if j == 1 {
        AbsentFirstChar(s, Conditions[1]);
      } else if j == 2 {
        AbsentFirstTwo(s, Conditions[2]);
      } else if j == 3 {
        AbsentFirstChar(s, Conditions[3]);
      } else if j == 4 {
        AbsentFirstChar(s, Conditions[4]);
      } else if j == 5 {
        AbsentFirstChar(s, Conditions[5]);
      } else if j == 6 {
        AbsentFirstTwo(s, Conditions[6]);
      }
    }
  }

  lemma SentinelHasNoCondition7(s: seq<char>)
    requires s == "Not provided"
    ensures forall j :: 7 <= j < 14 ==> !Contains(s, Conditions[j])
  {
    forall j | 7 <= j < 14 ensures !Contains(s, Conditions[j]) {
      if j == 7 {
        AbsentFirstTwo(s, Conditions[7]);
      } else if j == 8 {
        AbsentFirstTwo(s, Conditions[8]);
      } else if j == 9 {
        AbsentFirstTwo(s, Conditions[9]);
      } else if j == 10 {
        AbsentFirstChar(s, Conditions[10]);
      } else if j == 11 {
        AbsentFirstTwo(s, Conditions[11]);
      } else if j == 12 {
        AbsentFirstTwo(s, Conditions[12]);
      } else if j == 13 {
        AbsentFirstTwo(s, Conditions[13]);
      }
    }
  }

  lemma SentinelHasNoCondition14(s: seq<char>)
    requires s == "Not provided"
    ensures forall j :: 14 <= j < 21 ==> !Contains(s, Conditions[j])
  {
    forall j | 14 <= j < 21 ensures !Contains(s, Conditions[j]) {
      if j == 14 {
        AbsentFirstChar(s, Conditions[14]);
      } else if j == 15 {
        AbsentFirstChar(s, Conditions[15]);
      } else if j == 16 {
        AbsentFirstChar(s, Conditions[16]);
      } else if j == 17 {
        AbsentFirstChar(s, Conditions[17]);
      } else if j == 18 {
        AbsentFirstChar(s, Conditions[18]);
      } else if j == 19 {
        AbsentFirstChar(s, Conditions[19]);
      } else if j == 20 {
        AbsentFirstChar(s, Conditions[20]);
      }
    }
  }

  lemma SentinelHasNoCondition21(s: seq<char>)
    requires s == "Not provided"
    ensures forall j :: 21 <= j < 27 ==> !Contains(s, Conditions[j])
  {
    forall j | 21 <= j < 27 ensures !Contains(s, Conditions[j]) {
      if j == 21 {
        AbsentFirstChar(s, Conditions[21]);
      } else if j == 22 {
        AbsentFirstChar(s, Conditions[22]);
      } else if j == 23 {
        AbsentFirstChar(s, Conditions[23]);
      } else if j == 24 {
        AbsentFirstChar(s, Conditions[24]);
      } else if j == 25 {
        AbsentFirstChar(s, Conditions[25]);
      } else if j == 26 {
        AbsentFirstTwo(s, Conditions[26]);
      }
    }
  }

  /** The sentinel of a listing without subtitle carries neither a condition nor a seller type. */
  lemma SentinelHasNoTags(s: seq<char>)
    requires s == "Not provided"
    ensures Condition(s) == None && IntendedCondition(s) == None
    ensures SellerType(s) == None
  {
    SentinelHasNoCondition(s);
    AbsentFirstChar(s, "Privat");
    AbsentFirstChar(s, "Gewerblich");
  }

  /** "Sehr gut - Privat" is sold privately. */
  lemma PrivateSellerExample(s: seq<char>)
    requires s == "Sehr gut - Privat"
    ensures SellerType(s) == Some("Privat")
  {
    assert OccursAt(s, 11, "Privat");
    AbsentFirstChar(s, "Gewerblich");
  }
}
