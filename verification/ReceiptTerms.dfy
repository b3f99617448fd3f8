/** What a donation receipt certifies, in the terms of the entries, the request and the calendar. */
module ReceiptTerms {
  import opened Wrappers
  import opened Calendar
  import opened Receipts
  import opened ReceiptBook
  import Sorting

  /** An entry that can be certified to a party in a year, told by its own fields. */
  predicate CanBeCertified(club: Club, party: Party, year: int, ref: Ref) {
    && ref in club.entries
    && club.entries[ref].owner == Some(party)
    && MonthStart(12 * year) <= club.entries[ref].day < MonthStart(12 * year + 12)
    && match club.entries[ref].kind
       case Donation => true
       case MembershipFee => club.feesDeductible && club.entries[ref].amount > 0
       case OtherTransaction => false
  }

  /** The request is for one party, a member or a donor. */
  predicate IsFor(q: Request, party: Party) {
    match party
    case MemberParty(m) => q.member == Some(m) && q.donor == None
    case DonorParty(d) => q.donor == Some(d) && q.member == None
  }

  lemma PartyMeans(q: Request, party: Party)
    ensures PartyOf(q) == Some(party) <==> IsFor(q, party)
  {
  }

  lemma YearMeans(day: int, year: int)
    ensures YearOf(day) == year <==> MonthStart(12 * year) <= day < MonthStart(12 * year + 12)
  {
    MonthOfContains(day);
    var m := MonthOf(day);
    assert m / 12 == year <==> 12 * year <= m < 12 * year + 12;
    if m < 12 * year {
      MonthsApart(m + 1, 12 * year);
    } else if m >= 12 * year + 12 {
      MonthsApart(12 * year + 12, m);
    } else {
      MonthsApart(12 * year, m);
      MonthsApart(m + 1, 12 * year + 12);
    }
  }

  lemma CandidateMeans(club: Club, party: Party, year: int, ref: Ref)
    ensures IsCandidate(club, party, year, ref) <==> CanBeCertified(club, party, year, ref)
  {
    if ref in club.entries {
      YearMeans(club.entries[ref].day, year);
    }
  }

  function Sum(items: seq<Item>): int {
    if items == [] then 0 else items[0].amount + Sum(items[1..])
  }

  lemma {:induction false} SumOfOneMore(items: seq<Item>, it: Item)
    ensures Sum(items + [it]) == Sum(items) + it.amount
  {
    if items == [] {
      assert [it][1..] == [];
    } else {
      assert (items + [it])[1..] == items[1..] + [it];
      SumOfOneMore(items[1..], it);
    }
  }

  lemma {:induction false} TotalMeans(items: seq<Item>)
    ensures TotalOf(items) == Sum(items)
  {
    if items != [] {
      TotalMeans(items[..|items| - 1]);
      SumOfOneMore(items[..|items| - 1], items[|items| - 1]);
      assert items == items[..|items| - 1] + [items[|items| - 1]];
    }
  }

  /** An item repeats the entry it certifies. */
  predicate Repeats(it: Item, club: Club, ref: Ref) {
    ref in club.entries && it.ref == ref && it.kind == club.entries[ref].kind && it.day == club.entries[ref].day &&
    it.amount == club.entries[ref].amount
  }

  /** The days a receipt covers: those of its items, or the year up to the last one. */
  ghost predicate CoversItems(r: Receipt) {
    && (forall it | it in r.items :: r.start <= it.day <= r.end)
    && (if r.collective then r.start == MonthStart(12 * r.year) else exists it :: it in r.items && it.day == r.start)
    && (exists it :: it in r.items && it.day == r.end)
  }

  /** Every item certifies an entry of the party and of the year of the receipt, as the entry says. */
  predicate CertifiesEntries(r: Receipt, club: Club, refs: seq<Ref>) {
    && |r.items| == |refs| > 0
    && (forall i | 0 <= i < |refs| ::
          Repeats(r.items[i], club, refs[i]) && CanBeCertified(club, r.party, r.year, refs[i]))
    && (forall i, j | 0 <= i < j < |refs| :: refs[i] != refs[j])
  }

  lemma ItemsAreEntries(receipts: seq<Receipt>, club: Club, q: Request, items: seq<Item>)
    requires IsSound(club, q) && IsItemList(club, q, items)
    ensures CertifiesEntries(NewReceipt(receipts, PartyOf(q).value, items), club, q.refs)
  {
    var party, year := PartyOf(q).value, ItemYear(club, q.refs).value;
    var r := NewReceipt(receipts, party, items);
    assert IsCandidate(club, party, year, q.refs[0]) && items[0] == ItemOf(club, q.refs[0]);
    assert r.year == year;
    forall i | 0 <= i < |items|
      ensures Repeats(items[i], club, q.refs[i]) && CanBeCertified(club, party, year, q.refs[i])
    {
      CandidateMeans(club, party, year, q.refs[i]);
    }
  }

  lemma DaysAreCovered(receipts: seq<Receipt>, party: Party, items: seq<Item>, year: int)
    requires items != [] && forall it | it in items :: YearOf(it.day) == year
    ensures CoversItems(NewReceipt(receipts, party, items))
  {
    DaysAreWithin(items);
    FirstAndLastAreDays(items);
    var r := NewReceipt(receipts, party, items);
    assert items[0] in items && r.year == year;
    forall it | it in items ensures r.start <= it.day <= r.end {
      var i :| 0 <= i < |items| && items[i] == it;
      YearStartIsEarlier(it.day);
    }
  }

  /**
   * A new receipt is for the party of the request and certifies exactly what was asked for: entries of that party that
   * can be certified, all of the year of the receipt, with their sum.
   */
  lemma NewReceiptMeans(before: seq<Receipt>, club: Club, q: Request, after: seq<Receipt>)
    requires IsCreated(before, club, q, after) && after[|before|].duplicateOf.None?
    ensures after[..|before|] == before && |after| == |before| + 1
    ensures var r := after[|before|];
      && IsFor(q, r.party) && r.party in club.addresses && !r.voided
      && CertifiesEntries(r, club, q.refs) && CoversItems(r)
      && r.total == Sum(r.items) && r.collective == (|r.items| > 1)
  {
    var party := PartyOf(q).value;
    var items: seq<Item> :| IsItemList(club, q, items) && after == before + [NewReceipt(before, party, items)];
    PartyMeans(q, party);
    TotalMeans(items);
    ItemsAreEntries(before, club, q, items);
    var year := ItemYear(club, q.refs).value;
    forall it | it in items ensures YearOf(it.day) == year {
      var i :| 0 <= i < |items| && items[i] == it;
      assert IsCandidate(club, party, year, q.refs[i]);
    }
    DaysAreCovered(before, party, items, year);
  }

  lemma {:induction false} FirstAndLastAreDays(items: seq<Item>)
    requires items != []
    ensures exists it :: it in items && it.day == FirstDay(items)
    ensures exists it :: it in items && it.day == LastDay(items)
  {
    var last, front := items[|items| - 1], items[..|items| - 1];
    assert items == front + [last];
    if front != [] {
      FirstAndLastAreDays(front);
    }
  }

  /** Otherwise the request repeats the one receipt that certifies exactly its items, with nothing changed. */
  lemma RepeatedReceiptMeans(before: seq<Receipt>, club: Club, q: Request, after: seq<Receipt>)
    requires IsCreated(before, club, q, after) && after[|before|].duplicateOf.Some?
    ensures after[..|before|] == before && |after| == |before| + 1
    ensures var r := after[|before|];
      var id := r.duplicateOf.value;
      && id < |before| && !before[id].voided && before[id].duplicateOf.None? && !r.voided
      && (forall ref :: ref in q.refs <==> exists it :: it in before[id].items && it.ref == ref)
      && r.number == before[id].number && r.year == before[id].year && r.party == before[id].party
      && r.total == before[id].total && r.start == before[id].start && r.end == before[id].end
      && r.collective == before[id].collective && multiset(r.items) == multiset(before[id].items)
  {
    var id: ReceiptId :| RepeatsReceipt(before, q, id) && after == before + [DuplicateOf(before, id)];
    Sorting.SortSorts(before[id].items, ItemDay);
    forall ref ensures Lists(before[id].items, ref) <==> exists it :: it in before[id].items && it.ref == ref {
      if it :| it in before[id].items && it.ref == ref {
        var i :| 0 <= i < |before[id].items| && before[id].items[i] == it;
      }
    }
  }

  /** The references an error calls invalid: named before in the request, or not to be certified to the party. */
  lemma InvalidMeans(club: Club, q: Request, party: Party, year: int, ref: Ref)
    ensures ref in Invalid(club, q, party, Some(year), |q.refs|) <==>
      exists i :: 0 <= i < |q.refs| && q.refs[i] == ref &&
                  (!CanBeCertified(club, party, year, ref) || exists j :: 0 <= j < i && q.refs[j] == ref)
  {
    InvalidUpTo(club, q, party, year, ref, |q.refs|);
  }

  lemma {:induction false} InvalidUpTo(club: Club, q: Request, party: Party, year: int, ref: Ref, n: nat)
    requires n <= |q.refs|
    ensures ref in Invalid(club, q, party, Some(year), n) <==>
      exists i :: 0 <= i < n && q.refs[i] == ref &&
                  (!CanBeCertified(club, party, year, ref) || exists j :: 0 <= j < i && q.refs[j] == ref)
  {
    if n > 0 {
      InvalidUpTo(club, q, party, year, ref, n - 1);
      CandidateMeans(club, party, year, q.refs[n - 1]);
      assert q.refs[n - 1] in q.refs[..n - 1] <==> exists j :: 0 <= j < n - 1 && q.refs[j] == q.refs[n - 1];
    }
  }

  /** The year is that of the first reference with an entry. */
  lemma {:induction false} ItemYearMeans(club: Club, refs: seq<Ref>, i: nat)
    requires i < |refs| && refs[i] in club.entries && forall j | 0 <= j < i :: refs[j] !in club.entries
    ensures ItemYear(club, refs).Some?
    ensures var year := ItemYear(club, refs).value;
      MonthStart(12 * year) <= club.entries[refs[i]].day < MonthStart(12 * year + 12)
    decreases i
  {
    if i > 0 {
      assert refs[0] !in club.entries;
      ItemYearMeans(club, refs[1..], i - 1);
    } else {
      YearMeans(club.entries[refs[0]].day, YearOf(club.entries[refs[0]].day));
    }
  }

  lemma {:induction false} NoEntryNoYear(club: Club, refs: seq<Ref>)
    requires forall ref | ref in refs :: ref !in club.entries
    ensures ItemYear(club, refs) == None
  {
    if refs != [] {
      assert refs[0] in refs;
      NoEntryNoYear(club, refs[1..]);
    }
  }
}
