/**
 * Unions of a list of masks, as the engine builds them when it ORs
 * together one mask per direction.
 */
module Unions {
  import opened Bits
  import opened Walks

  /** The union of all masks in the list. */
  function UnionOf(masks: seq<bv64>): bv64
  {
    if |masks| == 0 then 0 else UnionOf(masks[..|masks| - 1]) | masks[|masks| - 1]
  }

  /** The whole list as a prefix of itself has the same union. */
  lemma UnionWhole(masks: seq<bv64>)
    ensures UnionOf(masks[..|masks|]) == UnionOf(masks)
  {
    assert masks[..|masks|] == masks;
  }

  /** Extending the prefix by one mask adds that mask to the union. */
  lemma UnionPrefixStep(masks: seq<bv64>, i: int)
    requires 0 <= i < |masks|
    ensures UnionOf(masks[..i + 1]) == UnionOf(masks[..i]) | masks[i]
  {
    assert masks[..i + 1][..i] == masks[..i];
  }

  /** A mask meets the union iff it meets one of the listed masks. */
  lemma {:induction false} UnionMeets(masks: seq<bv64>, q: bv64)
    ensures Meets(q, UnionOf(masks)) <==> exists j :: 0 <= j < |masks| && Meets(q, masks[j])
  {
    if |masks| > 0 {
      UnionMeets(masks[..|masks| - 1], q);
      UnionMeetsStep(masks, q);
      SomeMemberStep(masks, masks[..|masks| - 1], q);
    }
  }

  lemma UnionMeetsStep(masks: seq<bv64>, q: bv64)
    requires |masks| > 0
    ensures Meets(q, UnionOf(masks))
      == (Meets(q, UnionOf(masks[..|masks| - 1])) || Meets(q, masks[|masks| - 1]))
  {
    MeetSplit(q, UnionOf(masks), UnionOf(masks[..|masks| - 1]), masks[|masks| - 1]);
  }

  lemma SomeMemberStep(masks: seq<bv64>, front: seq<bv64>, q: bv64)
    requires |masks| > 0 && front == masks[..|masks| - 1]
    ensures (exists j :: 0 <= j < |masks| && Meets(q, masks[j]))
      == ((exists j :: 0 <= j < |front| && Meets(q, front[j])) || Meets(q, masks[|masks| - 1]))
  {
    if exists j :: 0 <= j < |masks| && Meets(q, masks[j]) {
      var j :| 0 <= j < |masks| && Meets(q, masks[j]);
      if j < |front| {
        assert front[j] == masks[j];
      }
    }
    if exists j :: 0 <= j < |front| && Meets(q, front[j]) {
      var j :| 0 <= j < |front| && Meets(q, front[j]);
      assert front[j] == masks[j];
    }
  }

  /** A mask that meets one listed mask meets the union. */
  lemma UnionMeetsMember(masks: seq<bv64>, j: int, q: bv64)
    requires 0 <= j < |masks| && Meets(q, masks[j])
    ensures Meets(q, UnionOf(masks))
  {
    UnionMeets(masks, q);
  }

  /** The union of a list holding a non-empty mask is non-empty. */
  lemma UnionHasMember(masks: seq<bv64>, j: int)
    requires 0 <= j < |masks| && masks[j] != 0
    ensures UnionOf(masks) != 0
  {
    UnionNonEmpty(masks);
  }

  /** A mask that meets no listed mask does not meet the union. */
  lemma UnionMissed(masks: seq<bv64>, q: bv64)
    requires forall j :: 0 <= j < |masks| ==> !Meets(q, masks[j])
    ensures !Meets(q, UnionOf(masks))
  {
    UnionMeets(masks, q);
  }

  /** The union is non-empty iff one of the listed masks is. */
  lemma UnionNonEmpty(masks: seq<bv64>)
    ensures UnionOf(masks) != 0 <==> exists j :: 0 <= j < |masks| && masks[j] != 0
  {
    UnionMeets(masks, ALL_ONES);
    FullMeets(UnionOf(masks));
    forall j | 0 <= j < |masks| {
      FullMeets(masks[j]);
    }
  }

  /** A union of masks that all miss m misses m. */
  lemma UnionOutside(masks: seq<bv64>, m: bv64)
    requires forall j :: 0 <= j < |masks| ==> masks[j] & m == 0
    ensures UnionOf(masks) & m == 0
  {
    forall j | 0 <= j < |masks|
      ensures !Meets(m, masks[j])
    {
      MeetsSymmetric(m, masks[j]);
    }
    UnionMissed(masks, m);
    MeetsSymmetric(m, UnionOf(masks));
  }

  /** A union of masks that all lie inside m lies inside m. */
  lemma UnionInside(masks: seq<bv64>, m: bv64)
    requires forall j :: 0 <= j < |masks| ==> masks[j] & m == masks[j]
    ensures UnionOf(masks) & m == UnionOf(masks)
  {
    forall j | 0 <= j < |masks|
      ensures !Meets(!m, masks[j])
    {
      InsideMeets(masks[j], m);
    }
    UnionMissed(masks, !m);
    InsideMeets(UnionOf(masks), m);
  }

  lemma MeetSplit(q: bv64, w: bv64, u: bv64, v: bv64)
    requires w == u | v
    ensures Meets(q, w) == (Meets(q, u) || Meets(q, v))
  {
    MeetUnion(q, u, v);
  }

  lemma FullMeets(x: bv64)
    ensures Meets(ALL_ONES, x) == (x != 0)
  {
  }

  lemma MeetsSymmetric(q: bv64, x: bv64)
    ensures Meets(q, x) == (x & q != 0)
  {
  }

  lemma InsideMeets(x: bv64, m: bv64)
    ensures x & m == x ==> !Meets(!m, x)
    ensures !Meets(!m, x) ==> x & m == x
  {
    InsideMissesComplement(x, m);
    MissesComplementInside(x, m);
  }

  lemma InsideMissesComplement(x: bv64, m: bv64)
    ensures x & m == x ==> !m & x == 0
  {
  }

  lemma MissesComplementInside(x: bv64, m: bv64)
    ensures !m & x == 0 ==> x & m == x
  {
  }
}
