/**
 The full deal snapshot: copy every lead, mark the stored deals that amoCRM no
 longer lists as deleted, and certify the result by counting live rows. Requests
 and writes may fail at any point where `mayFail` says so, and nowhere otherwise.
 */
module FullSnapshot {
  import opened Base
  import opened Paging

  datatype Outcome = Certified | SuspiciouslySmall | ParityFailed | RequestFailed

  /** The ids that leads in `ids` with a known stage are stored under. */
  function Mapped(ids: seq<nat>, known: set<nat>): set<nat> {
    set id | id in ids && id in known
  }

  /** The elements not listed, in order. */
  function Missing(active: seq<nat>, source: seq<nat>): seq<nat> {
    if |active| == 0 then []
    else (if active[0] in source then [] else [active[0]]) + Missing(active[1..], source)
  }

  lemma {:induction false} MissingMeans(active: seq<nat>, source: seq<nat>)
    ensures Elements(Missing(active, source)) == Elements(active) - Elements(source)
  {
    if |active| > 0 {
      MissingMeans(active[1..], source);
      var head := if active[0] in source then {} else {active[0]};
      assert Elements(Missing(active, source)) == head + Elements(Missing(active[1..], source));
      assert Elements(active) == {active[0]} + Elements(active[1..]);
    }
  }

  class DealStore {
    const known: set<nat>    // ids of leads whose pipeline stage is in the maps
    var live: set<nat>       // stored with deletedAt null

    constructor (known: set<nat>, live: set<nat>)
      ensures this.known == known && this.live == live
    {
      this.known, this.live := known, live;
    }

    /** Stores a lead live, or restores it; a lead in an unknown stage is passed over. */
    method UpsertDeal(id: nat)
      modifies this`live
      ensures live == if id in known then old(live) + {id} else old(live)
    {
      if id !in known {
        return;
      }
      live := live + {id};
    }

    method CopyLeads(leads: seq<nat>, sourceExternalIds: seq<nat>, mayFail: bool) returns (ids: seq<nat>, ok: bool)
      modifies this`live
      ensures ok || mayFail
      ensures old(live) <= live <= old(live) + Mapped(leads, known)
      ensures ok ==> live == old(live) + Mapped(leads, known) && ids == AddNew(sourceExternalIds, leads)
    {
      ids, ok := sourceExternalIds, false;
      for i := 0 to |leads|
        invariant live == old(live) + Mapped(leads[..i], known)
        invariant AddNew(ids, leads[i..]) == AddNew(sourceExternalIds, leads)
      {
        MappedGrows(leads, i, known);
        if mayFail {
          if * {
            return;
          }
        }
        assert leads[i..][1..] == leads[i + 1..];
        ids := if leads[i] in ids then ids else ids + [leads[i]];
        UpsertDeal(leads[i]);
      }
      assert leads[..|leads|] == leads;
      ok := true;
    }

    /** All pages of the listing. */
    method CopyAllLeads(listing: seq<nat>, mayFail: bool) returns (ids: seq<nat>, ok: bool)
      requires Distinct(listing)
      modifies this`live
      ensures ok || mayFail
      ensures old(live) <= live <= old(live) + Mapped(listing, known)
      ensures ok ==> ids == listing && live == old(live) + Mapped(listing, known)
    {
      hide Distinct, Mapped;
      var page := 1;
      ids, ok := [], false;
      NothingMapped(known);
      while true
        invariant page >= 1 && Span(page - 1, 250) <= |listing|
        invariant ids == listing[..Span(page - 1, 250)]
        invariant live == old(live) + Mapped(ids, known)
        decreases |listing| + 1 - page
      {
        PageMapped(listing, ids, page, known);
        if mayFail {
          if * {
            return ids, false;
          }
        }
        var data := Fetch(listing, page, 250);
        hide Fetch, AddNew;
        if |data.items| == 0 {
          return ids, true;
        }
        ids, ok := CopyLeads(data.items, ids, mayFail);
        if !ok || !data.hasNext {
          return;
        }
        page := page + 1;
      }
    }

    /** Marks the missing deals as deleted, five hundred at a time. */
    method DeleteMissing(missing: seq<nat>, mayFail: bool) returns (ok: bool)
      modifies this`live
      ensures ok || mayFail
      ensures old(live) - Elements(missing) <= live <= old(live)
      ensures ok ==> live == old(live) - Elements(missing)
    {
      var offset := 0;
      ok := false;
      while offset < |missing|
        invariant live == old(live) - Elements(missing[..Min(offset, |missing|)])
      {
        if mayFail {
          if * {
            return;
          }
        }
        var end := Min(offset + 500, |missing|);
        assert Elements(missing[..end]) == Elements(missing[..offset]) + Elements(missing[offset..end]);
        live := live - Elements(missing[offset..end]);
        offset := offset + 500;
      }
      assert missing[..|missing|] == missing;
      ok := true;
    }

    /**
     The full sync of deals. A listing of fewer than 80 % of a hundred or more
     live deals is suspiciously small, and deletes none. It certifies exactly the snapshots that are not
     suspiciously small and whose every lead is either of a known stage or was
     live before; then the live deals are the leads of amoCRM.
     */
    method SyncDeals(listing: seq<nat>, active: seq<nat>, mayFail: bool) returns (r: Outcome)
      requires Distinct(listing) && Distinct(active) && Elements(active) == live
      modifies this`live
      ensures r.Certified? ==> live == Elements(listing)
      ensures r.RequestFailed? ==> mayFail
      ensures !r.RequestFailed? ==>
                (r.SuspiciouslySmall? <==> |old(live)| >= 100 && 5 * |listing| < 4 * |old(live)|)
      ensures !r.RequestFailed? ==>
                (r.Certified? <==> !r.SuspiciouslySmall? && Elements(listing) <= old(live) + known)
      ensures r.SuspiciouslySmall? ==> live == old(live) + (known * Elements(listing))
      ensures r.ParityFailed? ==> live < Elements(listing)
    {
      var sourceExternalIds, ok := CopyAllLeads(listing, mayFail);
      if !ok {
        return RequestFailed;
      }
      DistinctCount(active);
      DistinctCount(listing);
      if |active| >= 100 && 5 * |sourceExternalIds| < 4 * |active| {
        return SuspiciouslySmall;
      }
      var missingExternalIds := Missing(active, sourceExternalIds);
      MissingMeans(active, listing);
      ok := DeleteMissing(missingExternalIds, mayFail);
      if !ok {
        return RequestFailed;
      }
      assert live <= Elements(listing);
      SubsetIsWholeIff(live, Elements(listing));
      r := if |live| != |sourceExternalIds| then ParityFailed else Certified;
    }
  }

  lemma MappedGrows(leads: seq<nat>, i: nat, known: set<nat>)
    requires i < |leads|
    ensures Mapped(leads[..i + 1], known) == Mapped(leads[..i], known) + if leads[i] in known then {leads[i]} else {}
    ensures Mapped(leads[..i], known) <= Mapped(leads, known)
  {
    assert leads[..i + 1] == leads[..i] + [leads[i]];
  }

  /** One page more keeps the copied ids a prefix of the listing. */
  lemma PageMapped(listing: seq<nat>, ids: seq<nat>, page: nat, known: set<nat>)
    requires Distinct(listing) && page >= 1 && Span(page - 1, 250) <= |listing| && ids == listing[..Span(page - 1, 250)]
    ensures var data := Fetch(listing, page, 250);
            var ids' := AddNew(ids, data.items);
            && Mapped(ids', known) == Mapped(ids, known) + Mapped(data.items, known)
            && Mapped(ids, known) <= Mapped(ids', known) <= Mapped(listing, known)
            && (|data.items| == 0 ==> ids == listing)
            && (!data.hasNext ==> ids' == listing)
            && (data.hasNext ==> Span(page, 250) <= |listing| && page < |listing| && ids' == listing[..Span(page, 250)])
  {
    var lo, hi := Span(page - 1, 250), Min(Span(page, 250), |listing|);
    AddSlice(listing, lo, lo, hi);
    assert listing[..hi] == listing[..lo] + listing[lo..hi];
    assert listing[..|listing|] == listing;
  }

  lemma NothingMapped(known: set<nat>)
    ensures Mapped([], known) == {}
  {
  }
}
