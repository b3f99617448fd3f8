/** Donation receipts: issuing, repeating as a duplicate, voiding, and what every run of these keeps. */
module Receipts {
  import opened Wrappers
  import opened Calendar
  import Sorting

  type ReceiptId = nat
  type Ref = nat

  datatype Party = MemberParty(member: nat) | DonorParty(donor: nat)

  datatype Kind = Donation | MembershipFee | OtherTransaction

  /** A live transaction or a paid fee; only donations and fees can be certified, to the party they belong to. */
  datatype Entry = Entry(kind: Kind, owner: Option<Party>, day: int, amount: int)

  /** What issuing a receipt reads: transactions and fees by id, and the parties with a postal address. */
  datatype Club = Club(entries: map<Ref, Entry>, addresses: set<Party>, feesDeductible: bool)

  datatype Item = Item(ref: Ref, kind: Kind, day: int, amount: int)

  /** The number of a receipt, written "2026-0001". */
  datatype Number = Number(year: int, sequence: nat)

  /** An issued receipt; its id is its position. A duplicate has sequence 0 and the number of its original. */
  datatype Receipt = Receipt(number: Number, year: int, sequence: nat, collective: bool, party: Party,
                             start: int, end: int, total: int, items: seq<Item>, duplicateOf: Option<ReceiptId>,
                             voided: bool)

  datatype Request = Request(member: Option<nat>, donor: Option<nat>, refs: seq<Ref>)

  datatype Error =
    | NotConfigured
    | BadItems(invalid: seq<Ref>, certified: seq<Ref>)
    | MissingAddress
    | NotFound
    | ReceiptVoided

  // ---------- Candidates ----------

  function YearOf(day: int): int {
    MonthOf(day) / 12
  }

  /** The entry can appear on a receipt of the party for the year. */
  predicate IsCandidate(club: Club, party: Party, year: int, ref: Ref) {
    ref in club.entries &&
    var e := club.entries[ref];
    && e.owner == Some(party)
    && YearOf(e.day) == year
    && (e.kind.Donation? || (e.kind.MembershipFee? && club.feesDeductible && e.amount > 0))
  }

  function ItemOf(club: Club, ref: Ref): Item
    requires ref in club.entries
  {
    Item(ref, club.entries[ref].kind, club.entries[ref].day, club.entries[ref].amount)
  }

  predicate Lists(items: seq<Item>, ref: Ref) {
    exists i :: 0 <= i < |items| && items[i].ref == ref
  }

  /** The receipt certifies: it is neither voided nor a duplicate. */
  predicate Certifies(r: Receipt) {
    !r.voided && r.duplicateOf.None?
  }

  /** The receipt that certifies an item, among the first `n`. */
  function CertifiedBy(receipts: seq<Receipt>, ref: Ref, n: nat): Option<ReceiptId>
    requires n <= |receipts|
  {
    if n == 0 then None
    else if Certifies(receipts[n - 1]) && Lists(receipts[n - 1].items, ref) then Some(n - 1)
    else CertifiedBy(receipts, ref, n - 1)
  }

  function Certificate(receipts: seq<Receipt>, ref: Ref): Option<ReceiptId> {
    CertifiedBy(receipts, ref, |receipts|)
  }

  /** Only the first reference with a live entry decides on the year. */
  function ItemYear(club: Club, refs: seq<Ref>): Option<int> {
    if refs == [] then None
    else if refs[0] in club.entries then Some(YearOf(club.entries[refs[0]].day))
    else ItemYear(club, refs[1..])
  }

  function PartyOf(q: Request): Option<Party> {
    if q.member.Some? && q.donor.None? then Some(MemberParty(q.member.value))
    else if q.member.None? && q.donor.Some? then Some(DonorParty(q.donor.value))
    else None
  }

  // ---------- Checking a request ----------

  predicate IsInvalid(club: Club, q: Request, party: Party, year: Option<int>, i: nat)
    requires i < |q.refs|
  {
    year.None? || !IsCandidate(club, party, year.value, q.refs[i]) || q.refs[i] in q.refs[..i]
  }

  function Invalid(club: Club, q: Request, party: Party, year: Option<int>, n: nat): seq<Ref>
    requires n <= |q.refs|
  {
    if n == 0 then []
    else Invalid(club, q, party, year, n - 1) + if IsInvalid(club, q, party, year, n - 1) then [q.refs[n - 1]] else []
  }

  function AlreadyCertified(receipts: seq<Receipt>, club: Club, q: Request, party: Party, year: Option<int>, n: nat)
    : seq<Ref>
    requires n <= |q.refs|
  {
    if n == 0 then []
    else
      AlreadyCertified(receipts, club, q, party, year, n - 1) +
      if !IsInvalid(club, q, party, year, n - 1) && Certificate(receipts, q.refs[n - 1]).Some? then [q.refs[n - 1]]
      else []
  }

  /** All items of a request can be certified to its party, in one year, and none is named twice. */
  ghost predicate IsSound(club: Club, q: Request) {
    && q.refs != [] && PartyOf(q).Some? && ItemYear(club, q.refs).Some?
    && (forall i | 0 <= i < |q.refs| :: IsCandidate(club, PartyOf(q).value, ItemYear(club, q.refs).value, q.refs[i]))
    && (forall i, j | 0 <= i < j < |q.refs| :: q.refs[i] != q.refs[j])
  }

  function ItemsOf(club: Club, refs: seq<Ref>): seq<Item>
    requires forall ref | ref in refs :: ref in club.entries
  {
    if refs == [] then [] else ItemsOf(club, refs[..|refs| - 1]) + [ItemOf(club, refs[|refs| - 1])]
  }

  // ---------- Issuing ----------

  function MaxSequence(receipts: seq<Receipt>, year: int, n: nat): nat
    requires n <= |receipts|
  {
    if n == 0 then 0
    else
      var before, r := MaxSequence(receipts, year, n - 1), receipts[n - 1];
      if r.year == year && r.sequence > before then r.sequence else before
  }

  function TotalOf(items: seq<Item>): int {
    if items == [] then 0 else TotalOf(items[..|items| - 1]) + items[|items| - 1].amount
  }

  function FirstDay(items: seq<Item>): int
    requires items != []
  {
    if |items| == 1 then items[0].day
    else
      var before, day := FirstDay(items[..|items| - 1]), items[|items| - 1].day;
      if day < before then day else before
  }

  function LastDay(items: seq<Item>): int
    requires items != []
  {
    if |items| == 1 then items[0].day
    else
      var before, day := LastDay(items[..|items| - 1]), items[|items| - 1].day;
      if day > before then day else before
  }

  /** Numbered after the highest sequence of the year. With several items it starts on 1 January. */
  function NewReceipt(receipts: seq<Receipt>, party: Party, items: seq<Item>): Receipt
    requires items != []
  {
    var year := YearOf(items[0].day);
    var sequence := MaxSequence(receipts, year, |receipts|) + 1;
    Receipt(Number(year, sequence), year, sequence, |items| > 1, party,
            if |items| > 1 then MonthStart(12 * year) else FirstDay(items), LastDay(items), TotalOf(items), items,
            None, false)
  }

  function ItemDay(it: Item): int {
    it.day
  }

  /** The items of a receipt as they are read back: by date, then in the order they were inserted. */
  function Sorted(items: seq<Item>): seq<Item> {
    Sorting.Sort(items, ItemDay)
  }

  /** The receipt itself, or the original of a duplicate. */
  function Original(receipts: seq<Receipt>, id: ReceiptId): (original: ReceiptId)
    requires id < |receipts|
    ensures original < |receipts|
  {
    match receipts[id].duplicateOf
    case Some(original) => if original < |receipts| then original else id
    case None => id
  }

  function DuplicateOf(receipts: seq<Receipt>, id: ReceiptId): Receipt
    requires id < |receipts|
  {
    receipts[id].(sequence := 0, items := Sorted(receipts[id].items), duplicateOf := Some(id), voided := false)
  }

  function Voided(receipts: seq<Receipt>, id: ReceiptId): seq<Receipt> {
    seq(|receipts|, i requires 0 <= i < |receipts| =>
          if i == id || receipts[i].duplicateOf == Some(id) then receipts[i].(voided := true) else receipts[i])
  }

  /** The one receipt that certifies all items of the request and nothing else. */
  ghost predicate RepeatsReceipt(receipts: seq<Receipt>, q: Request, id: ReceiptId) {
    && id < |receipts| && Certifies(receipts[id])
    && forall ref :: ref in q.refs <==> Lists(receipts[id].items, ref)
  }

  // ---------- What every receipt book keeps ----------

  function Originals(receipts: seq<Receipt>, year: int, n: nat): nat
    requires n <= |receipts|
  {
    if n == 0 then 0
    else
      Originals(receipts, year, n - 1) +
      if receipts[n - 1].duplicateOf.None? && receipts[n - 1].year == year then 1 else 0
  }

  predicate DistinctItems(items: seq<Item>) {
    forall i, j | 0 <= i < j < |items| :: items[i].ref != items[j].ref
  }

  /** An original has the next number of its year, and its totals and period are those of its items. */
  predicate GoodOriginal(receipts: seq<Receipt>, id: ReceiptId)
    requires id < |receipts|
  {
    var r := receipts[id];
    && r.sequence == Originals(receipts, r.year, id) + 1
    && r.number == Number(r.year, r.sequence)
    && r.items != [] && DistinctItems(r.items)
    && r.total == TotalOf(r.items)
    && (forall i | 0 <= i < |r.items| :: YearOf(r.items[i].day) == r.year && r.start <= r.items[i].day <= r.end)
  }

  /** A duplicate repeats an original; if that is voided, so is the duplicate. */
  predicate GoodDuplicate(receipts: seq<Receipt>, id: ReceiptId)
    requires id < |receipts| && receipts[id].duplicateOf.Some?
  {
    var r, o := receipts[id], receipts[id].duplicateOf.value;
    o < id &&
    var original := receipts[o];
    && original.duplicateOf.None?
    && r.sequence == 0 && r.number == original.number && r.year == original.year && r.collective == original.collective
    && r.party == original.party && r.start == original.start && r.end == original.end
    && r.total == original.total && multiset(r.items) == multiset(original.items)
    && (original.voided ==> r.voided)
  }

  predicate GoodReceipt(receipts: seq<Receipt>, id: ReceiptId)
    requires id < |receipts|
  {
    if receipts[id].duplicateOf.None? then GoodOriginal(receipts, id) else GoodDuplicate(receipts, id)
  }

  ghost predicate NotCertifiedTwice(receipts: seq<Receipt>) {
    forall i, j, ref | 0 <= i < j < |receipts| && Certifies(receipts[i]) && Certifies(receipts[j])
                       && Lists(receipts[i].items, ref) :: !Lists(receipts[j].items, ref)
  }

  ghost predicate Good(receipts: seq<Receipt>) {
    NotCertifiedTwice(receipts) && forall i | 0 <= i < |receipts| :: GoodReceipt(receipts, i)
  }
}
