/** Which fees a bank statement entry pays or reverses: the suggestion and its greedy allocation. */
module Matching {
  import opened Wrappers
  import Sorting

  type FeeId = nat
  type MemberId = nat
  type HouseholdId = nat
  type Day = int

  datatype Entry = Entry(amount: int, isReturn: bool)

  datatype Member = Member(id: MemberId, household: Option<HouseholdId>)

  /** A candidate: `amount` bounds what the entry may assign to the fee, `due` orders the fees of a member. */
  datatype Fee = Fee(id: FeeId, member: MemberId, amount: int, due: Day)

  /**
   * What the texts of an entry say: the fees its end-to-end ID names, and the members its remittance text, IBAN and
   * names point to. Finding them is text processing.
   */
  datatype Hits = Hits(endToEnd: set<FeeId>, number: set<MemberId>, iban: set<MemberId>, fullName: set<MemberId>,
                       lastName: set<MemberId>)

  datatype Confidence = Certain | Probable | Unclear

  datatype Reason = EndToEndId | MemberNumber | Iban | Name | Amount | Household | Partial | Overpaid

  datatype Allocation = Allocation(fee: FeeId, amount: int)

  datatype Suggestion = Suggestion(confidence: Confidence, reasons: seq<Reason>, allocations: seq<Allocation>,
                                   unallocated: int)

  // ---------- Lists of fees ----------

  function Sum(fees: seq<Fee>): int {
    if fees == [] then 0 else Sum(fees[..|fees| - 1]) + fees[|fees| - 1].amount
  }

  /** The greedy order within a member: by due day, descending if the entry is a return. */
  predicate GoesBefore(a: Fee, b: Fee, isReturn: bool) {
    if isReturn then a.due > b.due else a.due < b.due
  }

  function DueDay(f: Fee): int {
    f.due
  }

  function DueDayBackwards(f: Fee): int {
    -f.due
  }

  function SortByDue(fees: seq<Fee>, isReturn: bool): seq<Fee> {
    Sorting.Sort(fees, if isReturn then DueDayBackwards else DueDay)
  }

  function Owed(fees: seq<Fee>, m: MemberId): seq<Fee> {
    if fees == [] then []
    else
      var f, before := fees[|fees| - 1], Owed(fees[..|fees| - 1], m);
      if f.amount > 0 && f.member == m then before + [f] else before
  }

  /** The fees a member can be assigned, in the order they are used. */
  function FeesOf(e: Entry, fees: seq<Fee>, m: MemberId): seq<Fee> {
    SortByDue(Owed(fees, m), e.isReturn)
  }

  function FeesFor(e: Entry, fees: seq<Fee>, members: seq<Member>): seq<Fee> {
    if members == [] then []
    else FeesFor(e, fees, members[..|members| - 1]) + FeesOf(e, fees, members[|members| - 1].id)
  }

  function OfAmount(fees: seq<Fee>, amount: int): seq<Fee> {
    if fees == [] then []
    else
      var f, before := fees[|fees| - 1], OfAmount(fees[..|fees| - 1], amount);
      if f.amount == amount then before + [f] else before
  }

  // ---------- Allocating ----------

  /** The allocations in order until the amount is used up, and what is left of it. */
  function Greedy(amount: int, fees: seq<Fee>): (seq<Allocation>, int) {
    if fees == [] then ([], amount)
    else
      var (allocations, left) := Greedy(amount, fees[..|fees| - 1]);
      var f := fees[|fees| - 1];
      if left == 0 then (allocations, 0)
      else
        var part := if left < f.amount then left else f.amount;
        (allocations + [Allocation(f.id, part)], left - part)
  }

  function Allocated(e: Entry, fees: seq<Fee>, c: Confidence, reasons: seq<Reason>): Option<Suggestion> {
    var (allocations, left) := Greedy(e.amount, fees);
    if allocations == [] then None
    else if left > 0 then Some(Suggestion(c, reasons + [Overpaid], allocations, left))
    else if !e.isReturn && Sum(fees) > e.amount then Some(Suggestion(c, reasons + [Partial], allocations, left))
    else Some(Suggestion(c, reasons, allocations, left))
  }

  method Allocate(e: Entry, fees: seq<Fee>, c: Confidence, reasons: seq<Reason>) returns (s: Option<Suggestion>)
    ensures s == Allocated(e, fees, c, reasons)
  {
    var allocations: seq<Allocation> := [];
    var left := e.amount;
    var i := 0;
    while i < |fees| && left != 0
      invariant i <= |fees|
      invariant Greedy(e.amount, fees[..i]) == (allocations, left)
    {
      assert fees[..i + 1][..i] == fees[..i];
      var part := if left < fees[i].amount then left else fees[i].amount;
      allocations := allocations + [Allocation(fees[i].id, part)];
      left := left - part;
      i := i + 1;
    }
    if left == 0 {
      GreedyStops(e.amount, fees, i);
    } else {
      assert fees[..i] == fees;
    }
    if |allocations| == 0 {
      return None;
    }
    var sum := SumOf(fees);
    var why := if left > 0 then reasons + [Overpaid]
               else if !e.isReturn && sum > e.amount then reasons + [Partial]
               else reasons;
    return Some(Suggestion(c, why, allocations, left));
  }

  lemma {:induction false} GreedyStops(amount: int, fees: seq<Fee>, i: nat)
    requires i <= |fees| && Greedy(amount, fees[..i]).1 == 0
    ensures Greedy(amount, fees) == Greedy(amount, fees[..i])
  {
    if i < |fees| {
      assert fees[..|fees| - 1][..i] == fees[..i];
      GreedyStops(amount, fees[..|fees| - 1], i);
    } else {
      assert fees[..i] == fees;
    }
  }

  method SumOf(fees: seq<Fee>) returns (total: int)
    ensures total == Sum(fees)
  {
    total := 0;
    for i := 0 to |fees|
      invariant total == Sum(fees[..i])
    {
      assert fees[..i + 1][..i] == fees[..i];
      total := total + fees[i].amount;
    }
    assert fees[..|fees|] == fees;
  }

  // ---------- Matching ----------

  /** The groups a member can be in. */
  datatype Group =
    | TakingPart(e: Entry, fees: seq<Fee>)
    | Strong(hits: Hits)
    | Named(hits: Hits)
    | Surnamed(hits: Hits)
    | FamilyOf(group: seq<Member>)

  predicate IsStrong(hits: Hits, m: Member) {
    m.id in hits.number || m.id in hits.iban
  }

  predicate InGroup(m: Member, group: Group) {
    match group
    case TakingPart(e, fees) => FeesOf(e, fees, m.id) != []
    case Strong(hits) => IsStrong(hits, m)
    case Named(hits) => !IsStrong(hits, m) && m.id in hits.fullName
    case Surnamed(hits) => !IsStrong(hits, m) && m.id !in hits.fullName && m.id in hits.lastName
    case FamilyOf(members) => m.household.Some? && exists g :: g in members && g.household == m.household
  }

  function Select(members: seq<Member>, group: Group): seq<Member> {
    if members == [] then []
    else
      var m, before := members[|members| - 1], Select(members[..|members| - 1], group);
      if InGroup(m, group) then before + [m] else before
  }

  function StrongReasons(hits: Hits, strong: seq<Member>): seq<Reason> {
    (if exists m :: m in strong && m.id in hits.iban then [Iban] else []) +
    (if exists m :: m in strong && m.id in hits.number then [MemberNumber] else [])
  }

  predicate SameHousehold(group: seq<Member>) {
    |group| == 1 || forall m | m in group :: m.household.Some? && m.household == group[0].household
  }

  /** Fees of the group or of its households that add up to the entry, and whether they are those of the households. */
  function ExactFees(e: Entry, group: seq<Member>, all: seq<Member>, fees: seq<Fee>): Option<(seq<Fee>, bool)> {
    var own := FeesFor(e, fees, group);
    var single := SortByDue(OfAmount(own, e.amount), e.isReturn);
    var family := Select(all, FamilyOf(group));
    if single != [] then Some((single[..1], false))
    else if Sum(own) == e.amount then Some((own, false))
    else if |family| > |group| && Sum(FeesFor(e, fees, family)) == e.amount then Some((FeesFor(e, fees, family), true))
    else None
  }

  function Exact(e: Entry, group: seq<Member>, all: seq<Member>, fees: seq<Fee>, c: Confidence, reasons: seq<Reason>)
    : Option<Suggestion>
  {
    match ExactFees(e, group, all, fees)
    case None => None
    case Some((list, byHousehold)) =>
      Allocated(e, list, c, if byHousehold then reasons + [Amount, Household] else reasons + [Amount])
  }

  function NamedMatch(e: Entry, group: seq<Member>, all: seq<Member>, fees: seq<Fee>): Option<Suggestion> {
    if group != [] && SameHousehold(group) then Exact(e, group, all, fees, Probable, [Name]) else None
  }

  function EndToEndFee(fees: seq<Fee>, hits: Hits): Option<Fee> {
    if fees == [] then None
    else
      var first := EndToEndFee(fees[..|fees| - 1], hits);
      if first.Some? then first else if fees[|fees| - 1].id in hits.endToEnd then Some(fees[|fees| - 1]) else None
  }

  function MatchByMembers(e: Entry, members: seq<Member>, fees: seq<Fee>, hits: Hits): Option<Suggestion> {
    var all := Select(members, TakingPart(e, fees));
    var strong := Select(all, Strong(hits));
    var named := Select(all, Named(hits));
    var surnamed := Select(all, Surnamed(hits));
    if strong != [] then
      var s := Exact(e, strong, all, fees, Certain, StrongReasons(hits, strong));
      if s.Some? then s else Allocated(e, FeesFor(e, fees, strong), Probable, StrongReasons(hits, strong))
    else MatchByName(e, named, surnamed, all, fees)
  }

  function MatchByName(e: Entry, named: seq<Member>, surnamed: seq<Member>, all: seq<Member>, fees: seq<Fee>)
    : Option<Suggestion>
  {
    if NamedMatch(e, named, all, fees).Some? then NamedMatch(e, named, all, fees)
    else if NamedMatch(e, surnamed, all, fees).Some? then NamedMatch(e, surnamed, all, fees)
    else if named != [] then Allocated(e, FeesFor(e, fees, named), Unclear, [Name])
    else None
  }

  function Suggested(e: Entry, members: seq<Member>, fees: seq<Fee>, hits: Hits): Option<Suggestion> {
    if e.amount <= 0 then None
    else if e.isReturn && EndToEndFee(fees, hits).Some? then
      Allocated(e, [EndToEndFee(fees, hits).value], Certain, [EndToEndId])
    else MatchByMembers(e, members, fees, hits)
  }

  /** The fees of one member in a table filled member by member. */
  function Get(feesOf: map<MemberId, seq<Fee>>, m: MemberId): seq<Fee> {
    if m in feesOf then feesOf[m] else []
  }

  method FeesByMember(e: Entry, fees: seq<Fee>) returns (feesOf: map<MemberId, seq<Fee>>)
    ensures forall m :: Get(feesOf, m) == FeesOf(e, fees, m)
  {
    feesOf := map[];
    for i := 0 to |fees|
      invariant forall m :: Get(feesOf, m) == Owed(fees[..i], m)
    {
      assert fees[..i + 1][..i] == fees[..i];
      var f := fees[i];
      if f.amount > 0 {
        feesOf := feesOf[f.member := Get(feesOf, f.member) + [f]];
      }
    }
    assert fees[..|fees|] == fees;
    feesOf := map m | m in feesOf :: SortByDue(feesOf[m], e.isReturn);
  }

  lemma FeesForOneMore(e: Entry, fees: seq<Fee>, members: seq<Member>, i: nat)
    requires i < |members|
    ensures FeesFor(e, fees, members[..i + 1]) == FeesFor(e, fees, members[..i]) + FeesOf(e, fees, members[i].id)
  {
    assert members[..i + 1][..i] == members[..i];
  }

  method FeesOfGroup(e: Entry, fees: seq<Fee>, feesOf: map<MemberId, seq<Fee>>, members: seq<Member>)
    returns (out: seq<Fee>)
    requires forall m :: Get(feesOf, m) == FeesOf(e, fees, m)
    ensures out == FeesFor(e, fees, members)
  {
    out := [];
    for i := 0 to |members|
      invariant out == FeesFor(e, fees, members[..i])
    {
      FeesForOneMore(e, fees, members, i);
      out := out + Get(feesOf, members[i].id);
    }
    assert members[..|members|] == members;
  }

  method SelectGroup(members: seq<Member>, group: Group) returns (out: seq<Member>)
    ensures out == Select(members, group)
  {
    out := [];
    for i := 0 to |members|
      invariant out == Select(members[..i], group)
    {
      assert members[..i + 1][..i] == members[..i];
      if InGroup(members[i], group) {
        out := out + [members[i]];
      }
    }
    assert members[..|members|] == members;
  }

  method SelectAmount(fees: seq<Fee>, amount: int) returns (out: seq<Fee>)
    ensures out == OfAmount(fees, amount)
  {
    out := [];
    for i := 0 to |fees|
      invariant out == OfAmount(fees[..i], amount)
    {
      assert fees[..i + 1][..i] == fees[..i];
      if fees[i].amount == amount {
        out := out + [fees[i]];
      }
    }
    assert fees[..|fees|] == fees;
  }

  method ExactAmount(e: Entry, group: seq<Member>, all: seq<Member>, fees: seq<Fee>, feesOf: map<MemberId, seq<Fee>>,
                     c: Confidence, reasons: seq<Reason>)
    returns (s: Option<Suggestion>)
    requires forall m :: Get(feesOf, m) == FeesOf(e, fees, m)
    ensures s == Exact(e, group, all, fees, c, reasons)
  {
    var withAmount := reasons + [Amount];
    var own := FeesOfGroup(e, fees, feesOf, group);
    var single := SelectAmount(own, e.amount);
    if |single| > 0 {
      s := Allocate(e, SortByDue(single, e.isReturn)[..1], c, withAmount);
      return;
    }
    var sum := SumOf(own);
    if sum == e.amount {
      s := Allocate(e, own, c, withAmount);
      return;
    }
    var family := SelectGroup(all, FamilyOf(group));
    var fam := FeesOfGroup(e, fees, feesOf, family);
    sum := SumOf(fam);
    if |family| > |group| && sum == e.amount {
      s := Allocate(e, fam, c, withAmount + [Household]);
      assert withAmount + [Household] == reasons + [Amount, Household];
      return;
    }
    return None;
  }

  method FindEndToEnd(fees: seq<Fee>, hits: Hits) returns (found: Option<Fee>)
    ensures found == EndToEndFee(fees, hits)
  {
    for i := 0 to |fees|
      invariant EndToEndFee(fees[..i], hits).None?
    {
      assert fees[..i + 1][..i] == fees[..i];
      if fees[i].id in hits.endToEnd {
        EndToEndIsFirst(fees, hits, i);
        return Some(fees[i]);
      }
    }
    assert fees[..|fees|] == fees;
    return None;
  }

  lemma {:induction false} EndToEndIsFirst(fees: seq<Fee>, hits: Hits, i: nat)
    requires i < |fees| && EndToEndFee(fees[..i], hits).None? && fees[i].id in hits.endToEnd
    ensures EndToEndFee(fees, hits) == Some(fees[i])
  {
    if i < |fees| - 1 {
      assert fees[..|fees| - 1][..i] == fees[..i];
      EndToEndIsFirst(fees[..|fees| - 1], hits, i);
    }
  }

  /** Go: Match, from the hits in the texts on. */
  method Match(e: Entry, members: seq<Member>, fees: seq<Fee>, hits: Hits) returns (s: Option<Suggestion>)
    ensures s == Suggested(e, members, fees, hits)
  {
    if e.amount <= 0 {
      return None;
    }
    var feesOf := FeesByMember(e, fees);
    if e.isReturn {
      var f := FindEndToEnd(fees, hits);
      if f.Some? {
        s := Allocate(e, [f.value], Certain, [EndToEndId]);
        return;
      }
    }
    var all := SelectGroup(members, TakingPart(e, fees));
    var strong := SelectGroup(all, Strong(hits));
    var named := SelectGroup(all, Named(hits));
    var surnamed := SelectGroup(all, Surnamed(hits));
    if |strong| > 0 {
      var reasons := StrongReasons(hits, strong);
      s := ExactAmount(e, strong, all, fees, feesOf, Certain, reasons);
      if s.Some? {
        return;
      }
      var own := FeesOfGroup(e, fees, feesOf, strong);
      s := Allocate(e, own, Probable, reasons);
      return;
    }
    var groups := [named, surnamed];
    for i := 0 to |groups|
      invariant i > 0 ==> NamedMatch(e, named, all, fees).None?
      invariant i > 1 ==> NamedMatch(e, surnamed, all, fees).None?
    {
      if |groups[i]| > 0 {
        s := ExactAmount(e, groups[i], all, fees, feesOf, Probable, [Name]);
        if s.Some? && SameHousehold(groups[i]) {
          return;
        }
      }
    }
    if |named| > 0 {
      var own := FeesOfGroup(e, fees, feesOf, named);
      s := Allocate(e, own, Unclear, [Name]);
      return;
    }
    return None;
  }

  // ---------- What a suggestion promises ----------

  predicate DistinctFees(fees: seq<Fee>) {
    forall i, j | 0 <= i < j < |fees| :: fees[i].id != fees[j].id
  }

  predicate DistinctMembers(members: seq<Member>) {
    forall i, j | 0 <= i < j < |members| :: members[i].id != members[j].id
  }

  predicate AllPositive(fees: seq<Fee>) {
    forall f | f in fees :: f.amount > 0
  }

  /** Distinct fees with something to assign, all from `fees`. */
  predicate IsChoice(list: seq<Fee>, fees: seq<Fee>) {
    DistinctFees(list) && AllPositive(list) && forall f | f in list :: f in fees
  }

  /** No fee comes behind one of the same member that it goes before. */
  predicate InDueOrder(list: seq<Fee>, isReturn: bool) {
    forall i, j | 0 <= i < j < |list| && list[i].member == list[j].member :: !GoesBefore(list[j], list[i], isReturn)
  }

  predicate Sorted(list: seq<Fee>, isReturn: bool) {
    forall i, j | 0 <= i < j < |list| :: !GoesBefore(list[j], list[i], isReturn)
  }

  predicate OtherFee(f: Fee, g: Fee) {
    f.id != g.id
  }

  lemma SortFits(list: seq<Fee>, isReturn: bool)
    requires DistinctFees(list)
    ensures DistinctFees(SortByDue(list, isReturn)) && Sorted(SortByDue(list, isReturn), isReturn)
    ensures forall g :: g in SortByDue(list, isReturn) <==> g in list
  {
    var key := if isReturn then DueDayBackwards else DueDay;
    assert Sorting.Pairwise(list, OtherFee);
    Sorting.SortKeepsPairwise(list, key, OtherFee);
    Sorting.SortSorts(list, key);
    var all := SortByDue(list, isReturn);
    assert Sorting.Pairwise(all, OtherFee) && Sorting.IsSorted(all, key);
    forall i, j | 0 <= i < j < |all| ensures all[i].id != all[j].id && !GoesBefore(all[j], all[i], isReturn) {
      assert OtherFee(all[i], all[j]) && key(all[i]) <= key(all[j]);
    }
  }

  lemma {:induction false} OwedFits(fees: seq<Fee>, m: MemberId)
    requires DistinctFees(fees)
    ensures DistinctFees(Owed(fees, m))
    ensures forall f :: f in Owed(fees, m) <==> f in fees && f.amount > 0 && f.member == m
  {
    if fees != [] {
      var before := fees[..|fees| - 1];
      assert fees == before + [fees[|fees| - 1]];
      OwedFits(before, m);
    }
  }

  lemma FeesOfFits(e: Entry, fees: seq<Fee>, m: MemberId)
    requires DistinctFees(fees)
    ensures DistinctFees(FeesOf(e, fees, m)) && InDueOrder(FeesOf(e, fees, m), e.isReturn)
    ensures forall f :: f in FeesOf(e, fees, m) <==> f in fees && f.amount > 0 && f.member == m
  {
    OwedFits(fees, m);
    SortFits(Owed(fees, m), e.isReturn);
  }

  predicate IsMember(members: seq<Member>, m: MemberId) {
    exists i :: 0 <= i < |members| && members[i].id == m
  }

  lemma MembersGrow(members: seq<Member>, m: MemberId)
    requires members != []
    ensures IsMember(members, m) <==> IsMember(members[..|members| - 1], m) || members[|members| - 1].id == m
  {
    var before := members[..|members| - 1];
    if IsMember(before, m) {
      var i :| 0 <= i < |before| && before[i].id == m;
      assert members[i].id == m;
    }
  }

  lemma LastMemberIsNew(members: seq<Member>)
    requires DistinctMembers(members) && members != []
    ensures !IsMember(members[..|members| - 1], members[|members| - 1].id)
  {
    var before, last := members[..|members| - 1], members[|members| - 1];
    forall i | 0 <= i < |before| ensures before[i].id != last.id {
      assert before[i] == members[i];
    }
  }

  /** The list holds exactly all fees of the members, each once, and those of each member in due order. */
  ghost predicate AreFeesOf(list: seq<Fee>, fees: seq<Fee>, members: seq<Member>, isReturn: bool) {
    && DistinctFees(list) && InDueOrder(list, isReturn)
    && forall f :: f in list <==> f in fees && f.amount > 0 && IsMember(members, f.member)
  }

  /** The fees of one more member come behind those of the others. */
  lemma JoinedFees(fees: seq<Fee>, front: seq<Fee>, own: seq<Fee>, members: seq<Member>, isReturn: bool)
    requires DistinctFees(fees) && DistinctMembers(members) && members != []
    requires AreFeesOf(front, fees, members[..|members| - 1], isReturn)
    requires DistinctFees(own) && InDueOrder(own, isReturn)
    requires forall f :: f in own <==> f in fees && f.amount > 0 && f.member == members[|members| - 1].id
    ensures AreFeesOf(front + own, fees, members, isReturn)
  {
    var before, m := members[..|members| - 1], members[|members| - 1].id;
    forall f ensures IsMember(members, f) <==> IsMember(before, f) || m == f {
      MembersGrow(members, f);
    }
    LastMemberIsNew(members);
    forall i, j | 0 <= i < |front| && 0 <= j < |own|
      ensures front[i].id != own[j].id && front[i].member != own[j].member
    {
      assert front[i] in front && own[j] in own && front[i] in fees && own[j] in fees;
    }
  }

  /** The fees used for a group are exactly all fees of its members, in due order. */
  lemma {:induction false} FeesForFits(e: Entry, fees: seq<Fee>, members: seq<Member>)
    requires DistinctFees(fees) && DistinctMembers(members)
    ensures IsChoice(FeesFor(e, fees, members), fees) && AreFeesOf(FeesFor(e, fees, members), fees, members, e.isReturn)
  {
    if members != [] {
      var before, m := members[..|members| - 1], members[|members| - 1];
      FeesForFits(e, fees, before);
      FeesOfFits(e, fees, m.id);
      JoinedFees(fees, FeesFor(e, fees, before), FeesOf(e, fees, m.id), members, e.isReturn);
    }
  }

  lemma {:induction false} SelectKeepsDistinct(members: seq<Member>, group: Group)
    requires DistinctMembers(members)
    ensures DistinctMembers(Select(members, group))
    ensures forall m :: m in Select(members, group) <==> m in members && InGroup(m, group)
  {
    if members != [] {
      var before, last := members[..|members| - 1], members[|members| - 1];
      assert members == before + [last];
      SelectKeepsDistinct(before, group);
      forall m | m in Select(before, group) ensures m.id != last.id {
        var i :| 0 <= i < |before| && before[i] == m;
        assert members[i].id != members[|members| - 1].id;
      }
    }
  }

  lemma {:induction false} OfAmountFits(fees: seq<Fee>, amount: int)
    requires DistinctFees(fees)
    ensures DistinctFees(OfAmount(fees, amount))
    ensures forall f :: f in OfAmount(fees, amount) <==> f in fees && f.amount == amount
  {
    if fees != [] {
      var before := fees[..|fees| - 1];
      assert fees == before + [fees[|fees| - 1]];
      OfAmountFits(before, amount);
    }
  }

  function Total(allocations: seq<Allocation>): int {
    if allocations == [] then 0 else Total(allocations[..|allocations| - 1]) + allocations[|allocations| - 1].amount
  }

  /** The greedy allocation fills the fees in order: only the last one may get a part, and only if nothing is left. */
  lemma {:induction false} GreedyFills(amount: int, list: seq<Fee>)
    requires amount >= 0 && AllPositive(list)
    ensures var (allocations, left) := Greedy(amount, list);
      && left >= 0 && Total(allocations) + left == amount
      && |allocations| <= |list|
      && (forall i | 0 <= i < |allocations| ::
            allocations[i].fee == list[i].id && 0 < allocations[i].amount <= list[i].amount)
      && (forall i | 0 <= i < |allocations| - 1 :: allocations[i].amount == list[i].amount)
      && (left > 0 ==> |allocations| == |list| && forall i | 0 <= i < |list| :: allocations[i].amount == list[i].amount)
      && (amount > 0 && list != [] ==> allocations != [])
  {
    if list != [] {
      var before := list[..|list| - 1];
      assert list == before + [list[|list| - 1]];
      GreedyFills(amount, before);
      var (allocations, left) := Greedy(amount, before);
      var all := Greedy(amount, list).0;
      if left != 0 {
        assert all[..|all| - 1] == allocations;
      }
    }
  }

  /** Fees that do not exceed the amount are all filled. */
  lemma {:induction false} GreedyFillsAll(amount: int, list: seq<Fee>)
    requires AllPositive(list) && Sum(list) <= amount
    ensures var (allocations, left) := Greedy(amount, list);
      && left == amount - Sum(list)
      && |allocations| == |list|
      && forall i | 0 <= i < |list| :: allocations[i] == Allocation(list[i].id, list[i].amount)
  {
    if list != [] {
      var before := list[..|list| - 1];
      assert list == before + [list[|list| - 1]];
      GreedyFillsAll(amount, before);
      GreedyFillsLast(amount, list);
    }
  }

  lemma GreedyFillsLast(amount: int, list: seq<Fee>)
    requires list != []
    requires var left := Greedy(amount, list[..|list| - 1]).1; 0 < list[|list| - 1].amount <= left
    ensures var (allocations, left) := Greedy(amount, list[..|list| - 1]);
      var last := list[|list| - 1];
      Greedy(amount, list) == (allocations + [Allocation(last.id, last.amount)], left - last.amount)
  {
  }

  /** A fee of the same member that goes before a chosen one is chosen earlier, unless one fee is the whole entry. */
  predicate RespectsDueDates(e: Entry, list: seq<Fee>, fees: seq<Fee>) {
    forall j, x | 0 <= j < |list| && x in fees && x.amount > 0 && x.member == list[j].member
                  && GoesBefore(x, list[j], e.isReturn) ::
      x in list[..j] || (|list| == 1 && list[0].amount == e.amount != x.amount)
  }

  lemma GroupRespectsDueDates(e: Entry, fees: seq<Fee>, members: seq<Member>)
    requires DistinctFees(fees) && DistinctMembers(members)
    ensures IsChoice(FeesFor(e, fees, members), fees) && RespectsDueDates(e, FeesFor(e, fees, members), fees)
  {
    FeesForFits(e, fees, members);
    var list := FeesFor(e, fees, members);
    forall j, x | 0 <= j < |list| && x in fees && x.amount > 0 && x.member == list[j].member
                  && GoesBefore(x, list[j], e.isReturn)
      ensures x in list[..j]
    {
      assert list[j] in list;
      assert x in list;
      var i :| 0 <= i < |list| && list[i] == x;
      assert i < j;
    }
  }

  /** Of several fees that equal the entry the first in due order is chosen. */
  lemma SingleFits(e: Entry, own: seq<Fee>, fees: seq<Fee>)
    requires IsChoice(own, fees) && SortByDue(OfAmount(own, e.amount), e.isReturn) != []
    requires forall f, g | f in fees && f.amount > 0 && g in own && f.member == g.member :: f in own
    ensures var list := SortByDue(OfAmount(own, e.amount), e.isReturn)[..1];
      Sum(list) == e.amount && IsChoice(list, fees) && RespectsDueDates(e, list, fees)
  {
    OfAmountFits(own, e.amount);
    SortFits(OfAmount(own, e.amount), e.isReturn);
    var single := SortByDue(OfAmount(own, e.amount), e.isReturn);
    var list := single[..1];
    assert list == [single[0]] && single[0] in single;
    assert list[..0] == [];
    assert forall i | 0 <= i < |single| :: !GoesBefore(single[i], single[0], e.isReturn);
    forall x | x in fees && x.amount > 0 && x.member == single[0].member && GoesBefore(x, single[0], e.isReturn)
      ensures x.amount != e.amount
    {
      assert x !in single;
    }
  }

  lemma ExactFeesFit(e: Entry, group: seq<Member>, all: seq<Member>, fees: seq<Fee>)
    requires DistinctFees(fees) && DistinctMembers(group) && DistinctMembers(all)
    requires ExactFees(e, group, all, fees).Some?
    ensures var list := ExactFees(e, group, all, fees).value.0;
      Sum(list) == e.amount && IsChoice(list, fees) && RespectsDueDates(e, list, fees)
  {
    var own := FeesFor(e, fees, group);
    FeesForFits(e, fees, group);
    GroupRespectsDueDates(e, fees, group);
    if SortByDue(OfAmount(own, e.amount), e.isReturn) != [] {
      SingleFits(e, own, fees);
    } else if Sum(own) != e.amount {
      SelectKeepsDistinct(all, FamilyOf(group));
      GroupRespectsDueDates(e, fees, Select(all, FamilyOf(group)));
    }
  }

  /** Every suggestion is the greedy allocation of a choice of fees; a certain payment of one that adds up exactly. */
  lemma SuggestionComesFrom(e: Entry, members: seq<Member>, fees: seq<Fee>, hits: Hits) returns (list: seq<Fee>)
    requires DistinctFees(fees) && DistinctMembers(members) && AllPositive(fees)
    requires Suggested(e, members, fees, hits).Some?
    ensures var s := Suggested(e, members, fees, hits).value;
      && e.amount > 0
      && IsChoice(list, fees)
      && Greedy(e.amount, list) == (s.allocations, s.unallocated)
      && s.allocations != []
      && (s.confidence.Certain? && !e.isReturn ==> Sum(list) == e.amount)
      && (EndToEndId !in s.reasons ==> RespectsDueDates(e, list, fees))
  {
    var all := Select(members, TakingPart(e, fees));
    var strong, named, surnamed := Select(all, Strong(hits)), Select(all, Named(hits)), Select(all, Surnamed(hits));
    SelectKeepsDistinct(members, TakingPart(e, fees));
    if e.isReturn && EndToEndFee(fees, hits).Some? {
      list := [EndToEndFee(fees, hits).value];
      EndToEndIsAFee(fees, hits);
    } else if strong != [] {
      SelectKeepsDistinct(all, Strong(hits));
      if ExactFees(e, strong, all, fees).Some? {
        ExactFeesFit(e, strong, all, fees);
        list := ExactFees(e, strong, all, fees).value.0;
        GreedyFills(e.amount, list);
      } else {
        GroupRespectsDueDates(e, fees, strong);
        list := FeesFor(e, fees, strong);
      }
    } else if NamedMatch(e, named, all, fees).Some? {
      SelectKeepsDistinct(all, Named(hits));
      list := NamedComesFrom(e, named, all, fees);
    } else if NamedMatch(e, surnamed, all, fees).Some? {
      SelectKeepsDistinct(all, Surnamed(hits));
      list := NamedComesFrom(e, surnamed, all, fees);
    } else {
      SelectKeepsDistinct(all, Named(hits));
      GroupRespectsDueDates(e, fees, named);
      list := FeesFor(e, fees, named);
    }
  }

  lemma NamedComesFrom(e: Entry, group: seq<Member>, all: seq<Member>, fees: seq<Fee>) returns (list: seq<Fee>)
    requires DistinctFees(fees) && DistinctMembers(group) && DistinctMembers(all)
    requires NamedMatch(e, group, all, fees).Some?
    ensures var s := NamedMatch(e, group, all, fees).value;
      && IsChoice(list, fees) && RespectsDueDates(e, list, fees)
      && Greedy(e.amount, list) == (s.allocations, s.unallocated) && s.allocations != []
      && s.confidence == Probable
  {
    ExactFeesFit(e, group, all, fees);
    list := ExactFees(e, group, all, fees).value.0;
  }

  lemma {:induction false} EndToEndIsAFee(fees: seq<Fee>, hits: Hits)
    requires EndToEndFee(fees, hits).Some?
    ensures EndToEndFee(fees, hits).value in fees && EndToEndFee(fees, hits).value.id in hits.endToEnd
  {
    if EndToEndFee(fees[..|fees| - 1], hits).Some? {
      EndToEndIsAFee(fees[..|fees| - 1], hits);
    }
  }

  /**
   * A suggestion assigns positive parts of distinct fees, none more than it takes, and accounts for the whole entry.
   */
  lemma SuggestionFits(e: Entry, members: seq<Member>, fees: seq<Fee>, hits: Hits)
    requires DistinctFees(fees) && DistinctMembers(members) && AllPositive(fees)
    requires Suggested(e, members, fees, hits).Some?
    ensures var s := Suggested(e, members, fees, hits).value;
      && s.allocations != [] && s.unallocated >= 0
      && Total(s.allocations) + s.unallocated == e.amount
      && (forall i, j | 0 <= i < j < |s.allocations| :: s.allocations[i].fee != s.allocations[j].fee)
      && (forall a | a in s.allocations ::
            a.amount > 0 && exists f :: f in fees && f.id == a.fee && a.amount <= f.amount)
  {
    var list := SuggestionComesFrom(e, members, fees, hits);
    GreedyFills(e.amount, list);
    var s := Suggested(e, members, fees, hits).value;
    forall i | 0 <= i < |s.allocations|
      ensures exists f :: f in fees && f.id == s.allocations[i].fee && s.allocations[i].amount <= f.amount
    {
      assert list[i] in list;
    }
  }

  /** A certain payment suggestion uses up the entry and fills every fee. */
  lemma CertainPaymentIsExact(e: Entry, members: seq<Member>, fees: seq<Fee>, hits: Hits)
    requires DistinctFees(fees) && DistinctMembers(members) && AllPositive(fees)
    requires Suggested(e, members, fees, hits).Some?
    requires Suggested(e, members, fees, hits).value.confidence.Certain? && !e.isReturn
    ensures var s := Suggested(e, members, fees, hits).value;
      && s.unallocated == 0
      && forall a, f | a in s.allocations && f in fees && f.id == a.fee :: a.amount == f.amount
  {
    var list := SuggestionComesFrom(e, members, fees, hits);
    GreedyFillsAll(e.amount, list);
    var s := Suggested(e, members, fees, hits).value;
    forall a, f | a in s.allocations && f in fees && f.id == a.fee ensures a.amount == f.amount {
      var i :| 0 <= i < |s.allocations| && s.allocations[i] == a;
      assert list[i] in list && list[i] in fees && list[i].id == f.id;
      SameFee(fees, list[i], f);
    }
  }

  lemma SameFee(fees: seq<Fee>, f: Fee, g: Fee)
    requires DistinctFees(fees) && f in fees && g in fees && f.id == g.id
    ensures f == g
  {
  }

  predicate Fills(s: Suggestion, f: Fee) {
    Allocation(f.id, f.amount) in s.allocations
  }

  /**
   * Unless the end-to-end ID names the fee, or one fee is the whole entry, a payment reaches a fee only when all older
   * ones of the member are filled, and a return only when all newer ones are.
   */
  lemma OldestFirst(e: Entry, members: seq<Member>, fees: seq<Fee>, hits: Hits, x: Fee, y: Fee)
    requires DistinctFees(fees) && DistinctMembers(members) && AllPositive(fees) && x in fees && y in fees
    requires Suggested(e, members, fees, hits).Some?
    requires var s := Suggested(e, members, fees, hits).value;
      EndToEndId !in s.reasons && exists a :: a in s.allocations && a.fee == y.id
    requires x.member == y.member && if e.isReturn then x.due > y.due else x.due < y.due
    ensures var s := Suggested(e, members, fees, hits).value;
      Fills(s, x) || (s.allocations == [Allocation(y.id, e.amount)] && y.amount == e.amount != x.amount)
  {
    var s := Suggested(e, members, fees, hits).value;
    var list := SuggestionComesFrom(e, members, fees, hits);
    ReachedInOrder(e, list, fees, x, y);
  }

  lemma ReachedInOrder(e: Entry, list: seq<Fee>, fees: seq<Fee>, x: Fee, y: Fee)
    requires e.amount > 0 && DistinctFees(fees) && AllPositive(fees) && x in fees && y in fees && IsChoice(list, fees)
    requires RespectsDueDates(e, list, fees) && x.member == y.member && GoesBefore(x, y, e.isReturn)
    requires exists a :: a in Greedy(e.amount, list).0 && a.fee == y.id
    ensures var allocations := Greedy(e.amount, list).0;
      Allocation(x.id, x.amount) in allocations ||
      (allocations == [Allocation(y.id, e.amount)] && y.amount == e.amount != x.amount)
  {
    var allocations := Greedy(e.amount, list).0;
    GreedyFills(e.amount, list);
    var j :| 0 <= j < |allocations| && allocations[j].fee == y.id;
    assert list[j] in list;
    SameFee(fees, list[j], y);
    if x in list[..j] {
      var i :| 0 <= i < j && list[i] == x;
      assert allocations[i] == Allocation(x.id, x.amount);
    } else {
      assert |list| == 1 && list[0] == y;
      assert Sum(list) == Sum(list[..0]) + y.amount == e.amount;
      GreedyFillsAll(e.amount, list);
    }
  }
}
