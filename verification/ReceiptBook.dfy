/** The table of receipts, changed in place, and the proof that every run keeps it good. */
module ReceiptBook {
  import opened Wrappers
  import opened Calendar
  import opened Receipts
  import Sorting

  // ---------- Numbering ----------

  lemma {:induction false} OriginalsOfPrefix(receipts: seq<Receipt>, more: seq<Receipt>, year: int, n: nat)
    requires n <= |receipts| && n <= |more|
    requires forall i | 0 <= i < n :: receipts[i].year == more[i].year && receipts[i].duplicateOf == more[i].duplicateOf
    ensures Originals(receipts, year, n) == Originals(more, year, n)
  {
    if n > 0 {
      OriginalsOfPrefix(receipts, more, year, n - 1);
    }
  }

  lemma {:induction false} MaxSequenceCounts(receipts: seq<Receipt>, year: int, n: nat)
    requires Good(receipts) && n <= |receipts|
    ensures MaxSequence(receipts, year, n) == Originals(receipts, year, n)
  {
    if n > 0 {
      MaxSequenceCounts(receipts, year, n - 1);
      assert GoodReceipt(receipts, n - 1);
    }
  }

  lemma {:induction false} OriginalsGrow(receipts: seq<Receipt>, year: int, m: nat, n: nat)
    requires m <= n <= |receipts|
    ensures Originals(receipts, year, m) <= Originals(receipts, year, n)
  {
    if m < n {
      OriginalsGrow(receipts, year, m, n - 1);
    }
  }

  /** The originals of a year are numbered without gaps: every number up to their count has been given. */
  lemma {:induction false} NumbersHaveNoGaps(receipts: seq<Receipt>, year: int, n: nat, k: nat) returns (id: ReceiptId)
    requires Good(receipts) && n <= |receipts| && 1 <= k <= Originals(receipts, year, n)
    ensures id < n && receipts[id].duplicateOf.None? && receipts[id].number == Number(year, k)
  {
    assert GoodReceipt(receipts, n - 1);
    if k == Originals(receipts, year, n) && k != Originals(receipts, year, n - 1) {
      id := n - 1;
    } else {
      id := NumbersHaveNoGaps(receipts, year, n - 1, k);
    }
  }

  /** And no number is used again: later originals of a year have greater ones. */
  lemma NumbersIncrease(receipts: seq<Receipt>, i: ReceiptId, j: ReceiptId)
    requires Good(receipts) && i < j < |receipts|
    requires receipts[i].duplicateOf.None? && receipts[j].duplicateOf.None? && receipts[i].year == receipts[j].year
    ensures receipts[i].number.sequence < receipts[j].number.sequence
    ensures receipts[j].number.sequence <= Originals(receipts, receipts[j].year, |receipts|)
  {
    assert GoodReceipt(receipts, i) && GoodReceipt(receipts, j);
    OriginalsGrow(receipts, receipts[i].year, i + 1, j);
    OriginalsGrow(receipts, receipts[j].year, j + 1, |receipts|);
  }

  // ---------- Certificates ----------

  lemma {:induction false} CertificateIsFound(receipts: seq<Receipt>, ref: Ref, n: nat)
    requires n <= |receipts|
    ensures match CertifiedBy(receipts, ref, n)
      case Some(id) => id < n && Certifies(receipts[id]) && Lists(receipts[id].items, ref)
      case None => forall i | 0 <= i < n && Certifies(receipts[i]) :: !Lists(receipts[i].items, ref)
  {
    if n > 0 {
      CertificateIsFound(receipts, ref, n - 1);
    }
  }

  lemma CertificateIsUnique(receipts: seq<Receipt>, ref: Ref, id: ReceiptId)
    requires Good(receipts) && id < |receipts| && Certifies(receipts[id]) && Lists(receipts[id].items, ref)
    ensures Certificate(receipts, ref) == Some(id)
  {
    CertificateIsFound(receipts, ref, |receipts|);
  }

  // ---------- Items ----------

  lemma {:induction false} ItemsFollowRefs(club: Club, refs: seq<Ref>)
    requires forall ref | ref in refs :: ref in club.entries
    ensures |ItemsOf(club, refs)| == |refs|
    ensures forall i | 0 <= i < |refs| :: ItemsOf(club, refs)[i] == ItemOf(club, refs[i])
  {
    if refs != [] {
      ItemsFollowRefs(club, refs[..|refs| - 1]);
    }
  }

  lemma {:induction false} DaysAreWithin(items: seq<Item>)
    requires items != []
    ensures forall i | 0 <= i < |items| :: FirstDay(items) <= items[i].day <= LastDay(items)
    ensures exists i :: 0 <= i < |items| && FirstDay(items) == items[i].day
    ensures exists i :: 0 <= i < |items| && LastDay(items) == items[i].day
  {
    if |items| == 1 {
      assert FirstDay(items) == LastDay(items) == items[0].day;
    } else {
      var before, n := items[..|items| - 1], |items| - 1;
      DaysAreWithin(before);
      assert forall i | 0 <= i < n :: before[i] == items[i];
      var i :| 0 <= i < n && FirstDay(before) == before[i].day;
      var j :| 0 <= j < n && LastDay(before) == before[j].day;
      assert FirstDay(items) == items[i].day || FirstDay(items) == items[n].day;
      assert LastDay(items) == items[j].day || LastDay(items) == items[n].day;
    }
  }

  // ---------- Each operation ----------

  lemma EarlierStaysGood(receipts: seq<Receipt>, r: Receipt, i: ReceiptId)
    requires i < |receipts| && GoodReceipt(receipts, i)
    ensures GoodReceipt(receipts + [r], i)
  {
    OriginalsOfPrefix(receipts, receipts + [r], receipts[i].year, i);
  }

  lemma IssueKeepsGood(receipts: seq<Receipt>, party: Party, items: seq<Item>)
    requires Good(receipts) && items != [] && DistinctItems(items)
    requires forall i | 0 <= i < |items| :: YearOf(items[i].day) == YearOf(items[0].day)
    requires forall i | 0 <= i < |items| :: Certificate(receipts, items[i].ref).None?
    ensures Good(receipts + [NewReceipt(receipts, party, items)])
  {
    var r := NewReceipt(receipts, party, items);
    var all, n := receipts + [r], |receipts|;
    forall i | 0 <= i < n ensures GoodReceipt(all, i) {
      EarlierStaysGood(receipts, r, i);
    }
    MaxSequenceCounts(receipts, r.year, n);
    OriginalsOfPrefix(receipts, all, r.year, n);
    DaysAreWithin(items);
    forall i | 0 <= i < |items| ensures r.start <= items[i].day {
      YearStartIsEarlier(items[i].day);
    }
    assert GoodReceipt(all, n);
    forall i, ref | 0 <= i < n && Certifies(receipts[i]) && Lists(receipts[i].items, ref) ensures !Lists(items, ref) {
      CertificateIsUnique(receipts, ref, i);
    }
  }

  lemma YearStartIsEarlier(day: int)
    ensures MonthStart(12 * YearOf(day)) <= day
  {
    MonthOfContains(day);
    LaterMonthsStartLater(12 * YearOf(day), MonthOf(day));
  }

  lemma DuplicateKeepsGood(receipts: seq<Receipt>, id: ReceiptId)
    requires Good(receipts) && id < |receipts| && Certifies(receipts[id])
    ensures Good(receipts + [DuplicateOf(receipts, id)])
  {
    var r := DuplicateOf(receipts, id);
    var all := receipts + [r];
    forall i | 0 <= i < |receipts| ensures GoodReceipt(all, i) {
      EarlierStaysGood(receipts, r, i);
    }
    Sorting.SortSorts(receipts[id].items, ItemDay);
    assert GoodReceipt(all, |receipts|);
  }

  lemma VoidKeepsGood(receipts: seq<Receipt>, id: ReceiptId)
    requires Good(receipts) && id < |receipts|
    ensures Good(Voided(receipts, id))
  {
    var all := Voided(receipts, id);
    forall i | 0 <= i < |all| ensures GoodReceipt(all, i) {
      assert GoodReceipt(receipts, i);
      OriginalsOfPrefix(receipts, all, receipts[i].year, i);
    }
  }

  // ---------- Repeating a receipt ----------

  function RefSet(refs: seq<Ref>): set<Ref> {
    set ref | ref in refs
  }

  lemma {:induction false} DistinctRefsCount(refs: seq<Ref>)
    requires forall i, j | 0 <= i < j < |refs| :: refs[i] != refs[j]
    ensures |RefSet(refs)| == |refs|
  {
    if refs != [] {
      var last, before := refs[|refs| - 1], refs[..|refs| - 1];
      DistinctRefsCount(before);
      assert refs == before + [last];
      assert RefSet(refs) == RefSet(before) + {last};
    }
  }

  lemma SubsetOfSameSize(a: set<Ref>, b: set<Ref>)
    requires a <= b
    ensures |a| == |b| <==> a == b
  {
    assert b == a + (b - a);
  }

  function RefsOf(items: seq<Item>): seq<Ref> {
    seq(|items|, i requires 0 <= i < |items| => items[i].ref)
  }

  /** Distinct references that are all on a receipt are exactly its items just when there are as many. */
  lemma SameNumberMeansSameItems(refs: seq<Ref>, items: seq<Item>)
    requires DistinctItems(items) && forall i, j | 0 <= i < j < |refs| :: refs[i] != refs[j]
    requires forall ref | ref in refs :: Lists(items, ref)
    ensures |refs| == |items| <==> forall ref :: ref in refs <==> Lists(items, ref)
  {
    DistinctRefsCount(refs);
    DistinctRefsCount(RefsOf(items));
    forall ref ensures ref in RefsOf(items) <==> Lists(items, ref) {
      if Lists(items, ref) {
        var i :| 0 <= i < |items| && items[i].ref == ref;
        assert RefsOf(items)[i] == ref;
      }
    }
    SubsetOfSameSize(RefSet(refs), RefSet(RefsOf(items)));
    if RefSet(refs) == RefSet(RefsOf(items)) {
      forall ref ensures ref in refs <==> Lists(items, ref) {
        assert ref in refs <==> ref in RefSet(refs);
      }
    }
    if forall ref :: ref in refs <==> Lists(items, ref) {
      assert RefSet(refs) == RefSet(RefsOf(items));
    }
  }

  // ---------- Requests ----------

  lemma {:induction false} NothingInvalid(club: Club, q: Request, party: Party, year: Option<int>, n: nat)
    requires n <= |q.refs|
    ensures Invalid(club, q, party, year, n) == [] <==> forall i | 0 <= i < n :: !IsInvalid(club, q, party, year, i)
  {
    if n > 0 {
      NothingInvalid(club, q, party, year, n - 1);
    }
  }

  /** A request is sound just when none of its references is found invalid. */
  lemma SoundMeansNothingInvalid(club: Club, q: Request)
    requires q.refs != [] && PartyOf(q).Some?
    ensures IsSound(club, q) <==> Invalid(club, q, PartyOf(q).value, ItemYear(club, q.refs), |q.refs|) == []
  {
    var party, year := PartyOf(q).value, ItemYear(club, q.refs);
    NothingInvalid(club, q, party, year, |q.refs|);
    if Invalid(club, q, party, year, |q.refs|) == [] {
      assert !IsInvalid(club, q, party, year, 0);
      forall i | 0 <= i < |q.refs| ensures IsCandidate(club, party, year.value, q.refs[i]) {
        assert !IsInvalid(club, q, party, year, i);
      }
      forall i, j | 0 <= i < j < |q.refs| ensures q.refs[i] != q.refs[j] {
        assert !IsInvalid(club, q, party, year, j);
        assert q.refs[..j][i] == q.refs[i];
      }
    }
    if IsSound(club, q) {
      forall i | 0 <= i < |q.refs| ensures !IsInvalid(club, q, party, year, i) {
        assert forall j | 0 <= j < i :: q.refs[..i][j] == q.refs[j];
      }
    }
  }

  lemma {:induction false} NothingCertified(receipts: seq<Receipt>, club: Club, q: Request, n: nat)
    requires IsSound(club, q) && n <= |q.refs|
    ensures AlreadyCertified(receipts, club, q, PartyOf(q).value, ItemYear(club, q.refs), n) == [] <==>
      forall i | 0 <= i < n :: Certificate(receipts, q.refs[i]).None?
  {
    SoundMeansNothingInvalid(club, q);
    NothingInvalid(club, q, PartyOf(q).value, ItemYear(club, q.refs), |q.refs|);
    if n > 0 {
      NothingCertified(receipts, club, q, n - 1);
      assert !IsInvalid(club, q, PartyOf(q).value, ItemYear(club, q.refs), n - 1);
    }
  }

  /** A request repeats a receipt just when that certifies every reference and has as many items. */
  lemma RepeatingMeansSameReceipt(receipts: seq<Receipt>, club: Club, q: Request, id: ReceiptId)
    requires Good(receipts) && IsSound(club, q) && id < |receipts|
    ensures RepeatsReceipt(receipts, q, id) <==>
      (forall ref | ref in q.refs :: Certificate(receipts, ref) == Some(id)) && |receipts[id].items| == |q.refs|
  {
    if RepeatsReceipt(receipts, q, id) {
      assert GoodReceipt(receipts, id);
      forall ref | ref in q.refs ensures Certificate(receipts, ref) == Some(id) {
        CertificateIsUnique(receipts, ref, id);
      }
      SameNumberMeansSameItems(q.refs, receipts[id].items);
    }
    if forall ref | ref in q.refs :: Certificate(receipts, ref) == Some(id) {
      forall ref | ref in q.refs ensures Certifies(receipts[id]) && Lists(receipts[id].items, ref) {
        CertificateIsFound(receipts, ref, |receipts|);
      }
      assert q.refs[0] in q.refs;
      assert GoodReceipt(receipts, id);
      SameNumberMeansSameItems(q.refs, receipts[id].items);
    }
  }

  lemma NothingRepeats(receipts: seq<Receipt>, club: Club, q: Request)
    requires Good(receipts) && IsSound(club, q)
    requires forall ref | ref in q.refs :: Certificate(receipts, ref).None?
    ensures forall id: ReceiptId :: !RepeatsReceipt(receipts, q, id)
  {
    assert q.refs[0] in q.refs;
    forall id: ReceiptId ensures !RepeatsReceipt(receipts, q, id) {
      if id < |receipts| {
        RepeatingMeansSameReceipt(receipts, club, q, id);
      }
    }
  }

  /** The request is for items that are on no receipt. */
  ghost predicate IsNew(receipts: seq<Receipt>, club: Club, q: Request) {
    IsSound(club, q) && forall ref | ref in q.refs :: Certificate(receipts, ref).None?
  }

  /** A successful request repeats the one receipt with exactly its items, or certifies items that are on none. */
  ghost predicate IsCreated(before: seq<Receipt>, club: Club, q: Request, after: seq<Receipt>) {
    IsSound(club, q) &&
    ((exists id: ReceiptId :: RepeatsReceipt(before, q, id) && after == before + [DuplicateOf(before, id)]) ||
     (IsNew(before, club, q) && PartyOf(q).value in club.addresses &&
      exists items :: IsItemList(club, q, items) && after == before + [NewReceipt(before, PartyOf(q).value, items)]))
  }

  /** The items of a sound request, in its order. */
  ghost predicate IsItemList(club: Club, q: Request, items: seq<Item>) {
    |items| == |q.refs| > 0 &&
    forall i | 0 <= i < |items| :: q.refs[i] in club.entries && items[i] == ItemOf(club, q.refs[i])
  }

  /** Why a request fails: bad items, items certified otherwise, or no address. */
  ghost predicate IsCreateError(receipts: seq<Receipt>, club: Club, q: Request, e: Error) {
    if q.refs == [] || PartyOf(q).None? then e == BadItems(q.refs, [])
    else
      var party, year, n := PartyOf(q).value, ItemYear(club, q.refs), |q.refs|;
      if !IsSound(club, q) || !IsNew(receipts, club, q) then
        e == BadItems(Invalid(club, q, party, year, n), AlreadyCertified(receipts, club, q, party, year, n)) &&
        forall id: ReceiptId :: IsSound(club, q) ==> !RepeatsReceipt(receipts, q, id)
      else e == MissingAddress && party !in club.addresses
  }

  lemma CreatingKeepsGood(before: seq<Receipt>, club: Club, q: Request, after: seq<Receipt>)
    requires Good(before) && IsCreated(before, club, q, after)
    ensures Good(after)
  {
    if exists id: ReceiptId :: RepeatsReceipt(before, q, id) && after == before + [DuplicateOf(before, id)] {
      var id: ReceiptId :| RepeatsReceipt(before, q, id) && after == before + [DuplicateOf(before, id)];
      DuplicateKeepsGood(before, id);
    } else {
      var items: seq<Item> :| IsItemList(club, q, items) &&
                              after == before + [NewReceipt(before, PartyOf(q).value, items)];
      forall i | 0 <= i < |items| ensures Certificate(before, items[i].ref).None? {
        assert q.refs[i] in q.refs;
      }
      IssueKeepsGood(before, PartyOf(q).value, items);
    }
  }

  ghost predicate IsStep(before: seq<Receipt>, after: seq<Receipt>) {
    || (exists club, q :: IsCreated(before, club, q, after))
    || (exists id: ReceiptId :: id < |before| && Certifies(before[id]) && after == before + [DuplicateOf(before, id)])
    || (exists id: ReceiptId :: id < |before| && !before[id].voided && after == Voided(before, id))
  }

  /** Over every run of issuing, repeating and voiding the receipts stay good. */
  lemma {:induction false} EveryRunIsGood(states: seq<seq<Receipt>>, n: nat)
    requires n < |states| && Good(states[0])
    requires forall i | 0 <= i < |states| - 1 :: IsStep(states[i], states[i + 1])
    ensures Good(states[n])
  {
    if n > 0 {
      EveryRunIsGood(states, n - 1);
      var before, after := states[n - 1], states[n];
      assert IsStep(states[n - 1], states[n - 1 + 1]);
      if exists club, q :: IsCreated(before, club, q, after) {
        var club, q :| IsCreated(before, club, q, after);
        CreatingKeepsGood(before, club, q, after);
      } else if exists id: ReceiptId ::
                  id < |before| && Certifies(before[id]) && after == before + [DuplicateOf(before, id)] {
        var id: ReceiptId :| id < |before| && Certifies(before[id]) && after == before + [DuplicateOf(before, id)];
        DuplicateKeepsGood(before, id);
      } else {
        var id: ReceiptId :| id < |before| && !before[id].voided && after == Voided(before, id);
        VoidKeepsGood(before, id);
      }
    }
  }

  /** The receipts from `start` on answer the requests one by one. */
  ghost predicate AreDone(receipts: seq<Receipt>, club: Club, requests: seq<Request>, start: nat) {
    |receipts| == start + |requests| && forall i: nat | i < |requests| ::
      IsCreated(receipts[..start + i], club, requests[i], receipts[..start + i + 1])
  }

  lemma OneMoreDone(before: seq<Receipt>, after: seq<Receipt>, club: Club, requests: seq<Request>, q: Request,
                    start: nat)
    requires AreDone(before, club, requests, start) && IsCreated(before, club, q, after)
    requires before <= after && |after| == |before| + 1
    ensures AreDone(after, club, requests + [q], start)
  {
    var all := requests + [q];
    forall i: nat | i < |all| ensures IsCreated(after[..start + i], club, all[i], after[..start + i + 1]) {
      if i < |requests| {
        assert after[..start + i] == before[..start + i] && after[..start + i + 1] == before[..start + i + 1];
        assert all[i] == requests[i];
      } else {
        assert after[..start + i] == before && after[..start + i + 1] == after;
      }
    }
  }

  // ---------- The table ----------

  class Book {
    var receipts: seq<Receipt>

    constructor ()
      ensures receipts == [] && Valid()
    {
      receipts := [];
    }

    ghost predicate Valid()
      reads this
    {
      Good(receipts)
    }

    /** Issues one receipt per request, or none of them if one fails. */
    method CreateReceipts(club: Club, configured: bool, requests: seq<Request>)
      returns (r: Result<seq<ReceiptId>, Error>)
      requires Valid()
      modifies this
      ensures Valid()
      ensures r.Err? ==> receipts == old(receipts)
      ensures r.Ok? ==> configured && old(receipts) <= receipts
      ensures r.Ok? ==> AreDone(receipts, club, requests, |old(receipts)|)
      ensures r.Ok? ==> |r.value| == |requests| && forall i: nat | i < |requests| :: r.value[i] == |old(receipts)| + i
    {
      if !configured {
        return Err(NotConfigured);
      }
      var saved := receipts;
      var ids: seq<ReceiptId> := [];
      for k := 0 to |requests|
        invariant Valid() && saved <= receipts && AreDone(receipts, club, requests[..k], |saved|)
        invariant |ids| == k && forall i: nat | i < k :: ids[i] == |saved| + i
      {
        ghost var before := receipts;
        var one := CreateReceipt(club, requests[k]);
        if one.Err? {
          receipts := saved;
          return Err(one.error);
        }
        OneMoreDone(before, receipts, club, requests[..k], requests[k], |saved|);
        assert requests[..k + 1] == requests[..k] + [requests[k]];
        ids := ids + [one.value];
      }
      assert requests[..|requests|] == requests;
      return Ok(ids);
    }

    method CreateReceipt(club: Club, q: Request) returns (r: Result<ReceiptId, Error>)
      requires Valid()
      modifies this
      ensures Valid()
      ensures r.Ok? ==> r.value == |old(receipts)| && old(receipts) <= receipts && |receipts| == |old(receipts)| + 1
      ensures r.Ok? ==> IsCreated(old(receipts), club, q, receipts)
      ensures r.Err? ==> receipts == old(receipts) && IsCreateError(receipts, club, q, r.error)
    {
      if |q.refs| == 0 || PartyOf(q).None? {
        return Err(BadItems(q.refs, []));
      }
      var party, year := PartyOf(q).value, ItemYear(club, q.refs);
      var invalid, certified := CheckItems(club, q, party, year);
      SoundMeansNothingInvalid(club, q);
      if |invalid| > 0 {
        return Err(BadItems(invalid, certified));
      }
      NothingCertified(receipts, club, q, |q.refs|);
      if |certified| > 0 {
        var first := Certificate(receipts, q.refs[0]);
        var same := IsSameReceipt(q.refs);
        CertificateIsFound(receipts, q.refs[0], |receipts|);
        forall id: ReceiptId | id < |receipts| {
          RepeatingMeansSameReceipt(receipts, club, q, id);
        }
        if same && |receipts[first.value].items| == |q.refs| {
          r := Duplicate(first.value);
          return;
        }
        forall id: ReceiptId ensures !RepeatsReceipt(receipts, q, id) {
          assert q.refs[0] in q.refs;
        }
        return Err(BadItems([], certified));
      }
      if party !in club.addresses {
        return Err(MissingAddress);
      }
      var items := Issue(club, q, party);
      CreatingKeepsGood(old(receipts), club, q, receipts);
      return Ok(|receipts| - 1);
    }

    method CheckItems(club: Club, q: Request, party: Party, year: Option<int>)
      returns (invalid: seq<Ref>, certified: seq<Ref>)
      ensures invalid == Invalid(club, q, party, year, |q.refs|)
      ensures certified == AlreadyCertified(receipts, club, q, party, year, |q.refs|)
    {
      invalid, certified := [], [];
      var seen := {};
      for i := 0 to |q.refs|
        invariant invalid == Invalid(club, q, party, year, i)
        invariant certified == AlreadyCertified(receipts, club, q, party, year, i)
        invariant forall ref :: ref in seen <==> ref in q.refs[..i]
      {
        var ref := q.refs[i];
        if year.None? || !IsCandidate(club, party, year.value, ref) || ref in seen {
          invalid := invalid + [ref];
        } else if Certificate(receipts, ref).Some? {
          certified := certified + [ref];
        }
        seen := seen + {ref};
        assert q.refs[..i + 1] == q.refs[..i] + [ref];
      }
    }

    /** One certificate for every reference, and none without. */
    method IsSameReceipt(refs: seq<Ref>) returns (same: bool)
      requires refs != []
      ensures same <==> exists id :: forall ref | ref in refs :: Certificate(receipts, ref) == Some(id)
      ensures same ==> forall ref | ref in refs :: Certificate(receipts, ref) == Certificate(receipts, refs[0])
    {
      var first := Certificate(receipts, refs[0]);
      for i := 0 to |refs|
        invariant forall j | 0 <= j < i ::
          Certificate(receipts, refs[j]).Some? && Certificate(receipts, refs[j]) == first
      {
        if Certificate(receipts, refs[i]).None? || Certificate(receipts, refs[i]) != first {
          assert refs[0] in refs && refs[i] in refs;
          return false;
        }
      }
      assert forall ref | ref in refs :: Certificate(receipts, ref) == Some(first.value);
      return true;
    }

    method NextSequence(year: int) returns (next: nat)
      ensures next == MaxSequence(receipts, year, |receipts|) + 1
    {
      var max := 0;
      for i := 0 to |receipts|
        invariant max == MaxSequence(receipts, year, i)
      {
        if receipts[i].year == year && receipts[i].sequence > max {
          max := receipts[i].sequence;
        }
      }
      next := max + 1;
    }

    method Issue(club: Club, q: Request, party: Party) returns (items: seq<Item>)
      requires IsSound(club, q) && party == PartyOf(q).value
      modifies this
      ensures IsItemList(club, q, items) && receipts == old(receipts) + [NewReceipt(old(receipts), party, items)]
    {
      assert forall ref | ref in q.refs :: ref in club.entries;
      items := ItemsOf(club, q.refs);
      ItemsFollowRefs(club, q.refs);
      var year := YearOf(items[0].day);
      var sequence := NextSequence(year);
      var total, start, end := SumUp(items);
      if |items| > 1 {
        start := MonthStart(12 * year);
      }
      receipts := receipts +
        [Receipt(Number(year, sequence), year, sequence, |items| > 1, party, start, end, total, items, None, false)];
    }

    method SumUp(items: seq<Item>) returns (total: int, start: int, end: int)
      requires items != []
      ensures total == TotalOf(items) && start == FirstDay(items) && end == LastDay(items)
    {
      total, start, end := 0, items[0].day, items[0].day;
      for i := 0 to |items|
        invariant total == TotalOf(items[..i])
        invariant if i == 0 then start == end == items[0].day
                  else start == FirstDay(items[..i]) && end == LastDay(items[..i])
      {
        assert items[..i + 1][..i] == items[..i];
        total := total + items[i].amount;
        if items[i].day < start {
          start := items[i].day;
        }
        if items[i].day > end {
          end := items[i].day;
        }
      }
      assert items[..|items|] == items;
    }

    /** Repeats a receipt, or the original of a duplicate, unless it is voided. */
    method Duplicate(id: ReceiptId) returns (r: Result<ReceiptId, Error>)
      requires Valid()
      modifies this
      ensures Valid()
      ensures if id >= |old(receipts)| then r == Err(NotFound)
              else r == if old(receipts)[Original(old(receipts), id)].voided then Err(ReceiptVoided)
                        else Ok(|old(receipts)|)
      ensures r.Err? ==> receipts == old(receipts)
      ensures r.Ok? ==>
        var original := Original(old(receipts), id);
        && Certifies(old(receipts)[original])
        && receipts == old(receipts) + [DuplicateOf(old(receipts), original)]
    {
      if id >= |receipts| {
        return Err(NotFound);
      }
      assert GoodReceipt(receipts, id);
      var original := id;
      if receipts[id].duplicateOf.Some? {
        original := receipts[id].duplicateOf.value;
      }
      var o := receipts[original];
      if o.voided {
        return Err(ReceiptVoided);
      }
      DuplicateKeepsGood(receipts, original);
      var items := Sorted(o.items);
      receipts := receipts +
        [Receipt(o.number, o.year, 0, o.collective, o.party, o.start, o.end, o.total, items, Some(original), false)];
      return Ok(|receipts| - 1);
    }

    /** Voids a receipt and, if it is an original, its duplicates; its items can then be certified again. */
    method VoidReceipt(id: ReceiptId) returns (r: Result<(), Error>)
      requires Valid()
      modifies this
      ensures Valid()
      ensures r == if id >= |old(receipts)| then Err(NotFound)
                   else if old(receipts)[id].voided then Err(ReceiptVoided)
                   else Ok(())
      ensures receipts == if r.Ok? then Voided(old(receipts), id) else old(receipts)
    {
      if id >= |receipts| {
        return Err(NotFound);
      }
      if receipts[id].voided {
        return Err(ReceiptVoided);
      }
      VoidKeepsGood(receipts, id);
      for i := 0 to |receipts|
        invariant |receipts| == |old(receipts)|
        invariant forall j | 0 <= j < |receipts| ::
          receipts[j] == if j < i then Voided(old(receipts), id)[j] else old(receipts)[j]
      {
        if (i == id || receipts[i].duplicateOf == Some(id)) && !receipts[i].voided {
          receipts := receipts[i := receipts[i].(voided := true)];
        }
      }
      assert receipts == Voided(old(receipts), id);
      return Ok(());
    }
  }
}
