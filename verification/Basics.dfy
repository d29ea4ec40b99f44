/** What every part uses: optional values, the smaller of two numbers, the largest exact integer. */
module Basics {
  datatype Option<+T> = None | Some(value: T)

  /** The largest integer up to which ECMAScript's numbers are exact. */
  const MAX_SAFE := 0x1F_FFFF_FFFF_FFFF

  function Min(a: nat, b: nat): nat {
    if a < b then a else b
  }

  /** How many entries of a list this long a page from an offset holds. */
  function PageCount(total: nat, offset: nat, limit: nat): nat {
    if offset >= total then 0 else Min(limit, total - offset)
  }

  /** That page. */
  function Slice<T>(entries: seq<T>, offset: nat, limit: nat): seq<T> {
    if offset >= |entries| then [] else entries[offset..][..PageCount(|entries|, offset, limit)]
  }

  /**
   A page of a list from an offset: its entries stand in the list one after the other from there, and
   it has 64, or ends where the list ends, or is empty as it starts beyond.
   */
  predicate IsPageOf<T(==)>(list: seq<T>, offset: nat, page: seq<T>) {
    && (forall k | 0 <= k < |page| :: offset + k < |list| && page[k] == list[offset + k])
    && (|page| == 64 || offset + |page| == |list| || (offset >= |list| && page == []))
    && |page| <= 64
  }

  lemma SlicesArePages<T>(list: seq<T>, offset: nat)
    ensures IsPageOf(list, offset, Slice(list, offset, 64))
  {
  }
}
