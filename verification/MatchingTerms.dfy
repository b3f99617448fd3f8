/** What decides on a suggestion and how sure it is, in the terms of what the texts of the entry point to. */
module MatchingTerms {
  import opened Wrappers
  import opened Matching
  import Sorting

  /** Only members with something to assign take part. */
  ghost predicate TakesPart(fees: seq<Fee>, m: MemberId) {
    exists f :: f in fees && f.member == m && f.amount > 0
  }

  /** The member number or the IBAN of a member that takes part is in the entry. */
  ghost predicate IsIdentified(members: seq<Member>, fees: seq<Fee>, hits: Hits, m: Member) {
    m in members && TakesPart(fees, m.id) && m.id in hits.number + hits.iban
  }

  ghost predicate AnyIdentified(members: seq<Member>, fees: seq<Fee>, hits: Hits) {
    exists m :: IsIdentified(members, fees, hits, m)
  }

  /** A member that takes part is called by its full name, and by nothing surer. */
  ghost predicate IsCalled(members: seq<Member>, fees: seq<Fee>, hits: Hits, m: Member) {
    m in members && TakesPart(fees, m.id) && m.id !in hits.number + hits.iban && m.id in hits.fullName
  }

  /** Only the last name of a member that takes part is in the entry. */
  ghost predicate HasSurname(members: seq<Member>, fees: seq<Fee>, hits: Hits, m: Member) {
    && m in members && TakesPart(fees, m.id)
    && m.id !in hits.number + hits.iban + hits.fullName && m.id in hits.lastName
  }

  ghost predicate IsNamed(members: seq<Member>, fees: seq<Fee>, hits: Hits, m: Member) {
    IsCalled(members, fees, hits, m) || HasSurname(members, fees, hits, m)
  }

  /** Only a returned debit is decided by its end-to-end ID. */
  ghost predicate IsDecidedById(e: Entry, fees: seq<Fee>, hits: Hits) {
    e.isReturn && exists f :: f in fees && f.id in hits.endToEnd
  }

  predicate ShareHousehold(a: Member, b: Member) {
    a.household.Some? && a.household == b.household
  }

  /** The allocation is to a fee of the member. */
  ghost predicate IsTo(a: Allocation, fees: seq<Fee>, m: Member) {
    exists f :: f in fees && f.id == a.fee && f.member == m.id && f.amount > 0
  }

  // ---------- What the groups hold ----------

  lemma {:induction false} OwedMeans(fees: seq<Fee>, m: MemberId)
    ensures forall f :: f in Owed(fees, m) <==> f in fees && f.amount > 0 && f.member == m
  {
    if fees != [] {
      assert fees == fees[..|fees| - 1] + [fees[|fees| - 1]];
      OwedMeans(fees[..|fees| - 1], m);
    }
  }

  lemma FeesOfMeans(e: Entry, fees: seq<Fee>, m: MemberId)
    ensures forall f :: f in FeesOf(e, fees, m) <==> f in fees && f.amount > 0 && f.member == m
    ensures FeesOf(e, fees, m) != [] <==> TakesPart(fees, m)
  {
    OwedMeans(fees, m);
    Sorting.SortSorts(Owed(fees, m), if e.isReturn then DueDayBackwards else DueDay);
    var list := FeesOf(e, fees, m);
    if list != [] {
      assert list[0] in list;
    }
  }

  lemma {:induction false} SelectMeans(members: seq<Member>, group: Group)
    ensures forall m :: m in Select(members, group) <==> m in members && InGroup(m, group)
  {
    if members != [] {
      assert members == members[..|members| - 1] + [members[|members| - 1]];
      SelectMeans(members[..|members| - 1], group);
    }
  }

  lemma {:induction false} FeesForMeans(e: Entry, fees: seq<Fee>, group: seq<Member>)
    ensures forall f :: f in FeesFor(e, fees, group) <==>
      f in fees && f.amount > 0 && exists m :: m in group && m.id == f.member
  {
    if group != [] {
      var front, last := group[..|group| - 1], group[|group| - 1];
      assert group == front + [last];
      FeesForMeans(e, fees, front);
      FeesOfMeans(e, fees, last.id);
    }
  }

  lemma {:induction false} OfAmountMeans(fees: seq<Fee>, amount: int)
    ensures forall f :: f in OfAmount(fees, amount) <==> f in fees && f.amount == amount
  {
    if fees != [] {
      assert fees == fees[..|fees| - 1] + [fees[|fees| - 1]];
      OfAmountMeans(fees[..|fees| - 1], amount);
    }
  }

  lemma {:induction false} GreedyIsFrom(amount: int, list: seq<Fee>)
    ensures forall a | a in Greedy(amount, list).0 :: exists f :: f in list && f.id == a.fee
  {
    if list != [] {
      assert list == list[..|list| - 1] + [list[|list| - 1]];
      GreedyIsFrom(amount, list[..|list| - 1]);
    }
  }

  /** The groups of a match, by what the texts say. */
  lemma GroupsMean(e: Entry, members: seq<Member>, fees: seq<Fee>, hits: Hits)
    ensures var all := Select(members, TakingPart(e, fees));
      && (forall m :: m in all <==> m in members && TakesPart(fees, m.id))
      && (forall m :: m in Select(all, Strong(hits)) <==> IsIdentified(members, fees, hits, m))
      && (forall m :: m in Select(all, Named(hits)) <==> IsCalled(members, fees, hits, m))
      && (forall m :: m in Select(all, Surnamed(hits)) <==> HasSurname(members, fees, hits, m))
  {
    var all := Select(members, TakingPart(e, fees));
    SelectMeans(members, TakingPart(e, fees));
    forall m: Member ensures InGroup(m, TakingPart(e, fees)) <==> TakesPart(fees, m.id) {
      FeesOfMeans(e, fees, m.id);
    }
    SelectMeans(all, Strong(hits));
    SelectMeans(all, Named(hits));
    SelectMeans(all, Surnamed(hits));
  }

  // ---------- An exact match ----------

  lemma SingleIsOwn(e: Entry, own: seq<Fee>)
    ensures forall f | f in SortByDue(OfAmount(own, e.amount), e.isReturn) :: f in own && f.amount == e.amount
  {
    OfAmountMeans(own, e.amount);
    Sorting.SortSorts(OfAmount(own, e.amount), if e.isReturn then DueDayBackwards else DueDay);
  }

  lemma FamilyFeesAreOf(e: Entry, group: seq<Member>, all: seq<Member>, fees: seq<Fee>, f: Fee)
    requires f in FeesFor(e, fees, Select(all, FamilyOf(group)))
    ensures f in fees && f.amount > 0
    ensures exists m, g :: m in all && g in group && m.id == f.member && ShareHousehold(g, m)
  {
    var family := Select(all, FamilyOf(group));
    SelectMeans(all, FamilyOf(group));
    FeesForMeans(e, fees, family);
    var m :| m in family && m.id == f.member;
    var g :| g in group && g.household == m.household;
    assert ShareHousehold(g, m);
  }

  /** A fee is chosen from those of the group, or of the households of the group. */
  lemma ExactFeesAreOf(e: Entry, group: seq<Member>, all: seq<Member>, fees: seq<Fee>, f: Fee)
    requires ExactFees(e, group, all, fees).Some? && f in ExactFees(e, group, all, fees).value.0
    ensures f in fees && f.amount > 0
    ensures if ExactFees(e, group, all, fees).value.1
            then exists m, g :: m in all && g in group && m.id == f.member && ShareHousehold(g, m)
            else exists m :: m in group && m.id == f.member
  {
    if ExactFees(e, group, all, fees).value.1 {
      FamilyFeesAreOf(e, group, all, fees, f);
    } else {
      var own := FeesFor(e, fees, group);
      SingleIsOwn(e, own);
      FeesForMeans(e, fees, group);
    }
  }

  /** If one fee of the group is the whole entry, the match is exact. */
  lemma OneFeeIsExact(e: Entry, group: seq<Member>, all: seq<Member>, fees: seq<Fee>, f: Fee, m: Member)
    requires m in group && f in fees && f.member == m.id && f.amount == e.amount > 0
    ensures ExactFees(e, group, all, fees).Some?
    ensures |ExactFees(e, group, all, fees).value.0| == 1
  {
    var own := FeesFor(e, fees, group);
    FeesForMeans(e, fees, group);
    OfAmountMeans(own, e.amount);
    Sorting.SortSorts(OfAmount(own, e.amount), if e.isReturn then DueDayBackwards else DueDay);
    assert f in SortByDue(OfAmount(own, e.amount), e.isReturn);
  }

  /** What allocating adds to the reasons, and to whom it goes. */
  lemma AllocatedMeans(e: Entry, list: seq<Fee>, c: Confidence, reasons: seq<Reason>)
    ensures Allocated(e, list, c, reasons).Some? ==>
      var s := Allocated(e, list, c, reasons).value;
      && s.confidence == c
      && (forall r | r !in {Overpaid, Partial} :: r in s.reasons <==> r in reasons)
      && forall a | a in s.allocations :: exists f :: f in list && f.id == a.fee
    ensures e.amount > 0 && list != [] ==> Allocated(e, list, c, reasons).Some?
  {
    GreedyIsFrom(e.amount, list);
    if e.amount > 0 && list != [] {
      SomethingIsAllocated(e.amount, list);
    }
  }

  lemma {:induction false} SomethingIsAllocated(amount: int, list: seq<Fee>)
    requires amount > 0 && list != []
    ensures Greedy(amount, list).0 != []
  {
    if |list| > 1 {
      SomethingIsAllocated(amount, list[..|list| - 1]);
    }
  }

  // ---------- What decides ----------

  /** An entry without an amount is never matched. */
  lemma NothingToMatch(e: Entry, members: seq<Member>, fees: seq<Fee>, hits: Hits)
    requires e.amount <= 0
    ensures Suggested(e, members, fees, hits) == None
  {
  }

  /** An end-to-end ID decides on a return alone: it goes to one fee with that ID. */
  lemma IdDecides(e: Entry, members: seq<Member>, fees: seq<Fee>, hits: Hits)
    requires e.amount > 0 && IsDecidedById(e, fees, hits)
    ensures Suggested(e, members, fees, hits).Some?
    ensures var s := Suggested(e, members, fees, hits).value;
      && s.confidence == Certain && EndToEndId in s.reasons
      && forall a | a in s.allocations :: exists f :: f in fees && f.id == a.fee && f.id in hits.endToEnd
  {
    var f :| f in fees && f.id in hits.endToEnd;
    EndToEndIsFound(fees, hits, f);
    EndToEndIsAFee(fees, hits);
    AllocatedMeans(e, [EndToEndFee(fees, hits).value], Certain, [EndToEndId]);
  }

  lemma {:induction false} EndToEndIsFound(fees: seq<Fee>, hits: Hits, f: Fee)
    requires f in fees && f.id in hits.endToEnd
    ensures EndToEndFee(fees, hits).Some?
  {
    var last := fees[|fees| - 1];
    assert fees == fees[..|fees| - 1] + [last];
    if f != last {
      EndToEndIsFound(fees[..|fees| - 1], hits, f);
    }
  }

  lemma NoIdIsFound(fees: seq<Fee>, hits: Hits)
    ensures EndToEndFee(fees, hits).Some? ==> exists f :: f in fees && f.id in hits.endToEnd
  {
    if EndToEndFee(fees, hits).Some? {
      EndToEndIsAFee(fees, hits);
    }
  }

  /** Whom an allocation may be to, if the members identified decide. */
  ghost predicate IsToIdentified(a: Allocation, members: seq<Member>, fees: seq<Fee>, hits: Hits, byHousehold: bool) {
    exists m :: m in members && IsTo(a, fees, m) &&
      if byHousehold then exists g :: IsIdentified(members, fees, hits, g) && ShareHousehold(g, m)
      else IsIdentified(members, fees, hits, m)
  }

  /** The reasons say what identified a member that takes part. */
  ghost predicate ReasonsAreRight(reasons: seq<Reason>, members: seq<Member>, fees: seq<Fee>, hits: Hits) {
    && (MemberNumber in reasons <==> exists m :: m in members && TakesPart(fees, m.id) && m.id in hits.number)
    && (Iban in reasons <==> exists m :: m in members && TakesPart(fees, m.id) && m.id in hits.iban)
    && Name !in reasons && EndToEndId !in reasons
  }

  lemma StrongReasonsMean(members: seq<Member>, fees: seq<Fee>, hits: Hits, strong: seq<Member>)
    requires forall m :: m in strong <==> IsIdentified(members, fees, hits, m)
    ensures ReasonsAreRight(StrongReasons(hits, strong), members, fees, hits)
    ensures forall r | r in {Amount, Household, Overpaid, Partial} :: r !in StrongReasons(hits, strong)
  {
    if m :| m in members && TakesPart(fees, m.id) && m.id in hits.number {
      assert IsIdentified(members, fees, hits, m);
    }
    if m :| m in members && TakesPart(fees, m.id) && m.id in hits.iban {
      assert IsIdentified(members, fees, hits, m);
    }
  }

  /** The allocation is to a member of the group, or of a household of the group. */
  ghost predicate IsToGroup(a: Allocation, group: seq<Member>, all: seq<Member>, fees: seq<Fee>, byHousehold: bool) {
    if byHousehold then exists m, g :: m in all && g in group && IsTo(a, fees, m) && ShareHousehold(g, m)
    else exists m :: m in group && IsTo(a, fees, m)
  }

  /** An exact match of a group, and whom it goes to. */
  lemma ExactMeans(e: Entry, group: seq<Member>, all: seq<Member>, fees: seq<Fee>, c: Confidence, reasons: seq<Reason>)
    requires e.amount > 0 && Exact(e, group, all, fees, c, reasons).Some?
    requires Household !in reasons
    ensures var s := Exact(e, group, all, fees, c, reasons).value;
      && s.confidence == c && Amount in s.reasons
      && (forall r | r !in {Amount, Household, Overpaid, Partial} :: r in s.reasons <==> r in reasons)
      && forall a | a in s.allocations :: IsToGroup(a, group, all, fees, Household in s.reasons)
  {
    var (list, byHousehold) := ExactFees(e, group, all, fees).value;
    var why := if byHousehold then reasons + [Amount, Household] else reasons + [Amount];
    var s := Exact(e, group, all, fees, c, reasons).value;
    AllocatedMeans(e, list, c, why);
    assert Household in s.reasons <==> byHousehold;
    forall a | a in s.allocations
      ensures IsToGroup(a, group, all, fees, byHousehold)
    {
      var f :| f in list && f.id == a.fee;
      ExactFeesAreOf(e, group, all, fees, f);
      assert forall m: Member | m.id == f.member :: IsTo(a, fees, m);
    }
  }

  /**
   * A member identified by number or IBAN decides: the suggestion is certain if the amounts agree and probable
   * otherwise, never by name, and goes to members that are identified, or to their households if it says so.
   */
  lemma IdentifiedDecide(e: Entry, members: seq<Member>, fees: seq<Fee>, hits: Hits)
    requires e.amount > 0 && !IsDecidedById(e, fees, hits) && AnyIdentified(members, fees, hits)
    ensures Suggested(e, members, fees, hits).Some?
    ensures var s := Suggested(e, members, fees, hits).value;
      && s.confidence == (if Amount in s.reasons then Certain else Probable)
      && ReasonsAreRight(s.reasons, members, fees, hits)
      && forall a | a in s.allocations :: IsToIdentified(a, members, fees, hits, Household in s.reasons)
  {
    NoIdIsFound(fees, hits);
    GroupsMean(e, members, fees, hits);
    var all := Select(members, TakingPart(e, fees));
    var strong := Select(all, Strong(hits));
    var reasons := StrongReasons(hits, strong);
    StrongReasonsMean(members, fees, hits, strong);
    var some :| IsIdentified(members, fees, hits, some);
    assert some in strong;
    IdentifiedGroup(e, members, fees, hits, strong, all, reasons);
  }

  /** The suggestion of a group of identified members. */
  function OfIdentified(e: Entry, strong: seq<Member>, all: seq<Member>, fees: seq<Fee>, reasons: seq<Reason>)
    : Option<Suggestion>
  {
    var s := Exact(e, strong, all, fees, Certain, reasons);
    if s.Some? then s else Allocated(e, FeesFor(e, fees, strong), Probable, reasons)
  }

  lemma IdentifiedGroup(e: Entry, members: seq<Member>, fees: seq<Fee>, hits: Hits, strong: seq<Member>,
                        all: seq<Member>, reasons: seq<Reason>)
    requires e.amount > 0 && strong != [] && forall m | m in all :: m in members
    requires forall m | m in strong :: IsIdentified(members, fees, hits, m)
    requires ReasonsAreRight(reasons, members, fees, hits)
    requires forall r | r in {Amount, Household, Overpaid, Partial} :: r !in reasons
    ensures OfIdentified(e, strong, all, fees, reasons).Some?
    ensures var s := OfIdentified(e, strong, all, fees, reasons).value;
      && s.confidence == (if Amount in s.reasons then Certain else Probable)
      && ReasonsAreRight(s.reasons, members, fees, hits)
      && forall a | a in s.allocations :: IsToIdentified(a, members, fees, hits, Household in s.reasons)
  {
    if Exact(e, strong, all, fees, Certain, reasons).Some? {
      ExactMeans(e, strong, all, fees, Certain, reasons);
      GroupIsIdentified(members, fees, hits, strong, all, Exact(e, strong, all, fees, Certain, reasons).value);
    } else {
      FeesOfGroupAreAllocated(e, fees, strong, Probable, reasons);
      var s := Allocated(e, FeesFor(e, fees, strong), Probable, reasons).value;
      GroupIsIdentified(members, fees, hits, strong, all, s);
    }
  }

  lemma GroupIsIdentified(members: seq<Member>, fees: seq<Fee>, hits: Hits, strong: seq<Member>, all: seq<Member>,
                          s: Suggestion)
    requires forall m | m in strong :: IsIdentified(members, fees, hits, m)
    requires forall m | m in all :: m in members
    requires forall a | a in s.allocations :: IsToGroup(a, strong, all, fees, Household in s.reasons)
    ensures forall a | a in s.allocations :: IsToIdentified(a, members, fees, hits, Household in s.reasons)
  {
  }

  lemma GroupIsNamed(members: seq<Member>, fees: seq<Fee>, hits: Hits, group: seq<Member>, all: seq<Member>,
                     s: Suggestion)
    requires forall m | m in group :: IsNamed(members, fees, hits, m)
    requires forall m | m in all :: m in members
    requires forall a | a in s.allocations :: IsToGroup(a, group, all, fees, Household in s.reasons)
    ensures forall a | a in s.allocations :: IsToNamed(a, members, fees, hits, Household in s.reasons)
  {
  }

  /** All fees of a group are allocated to it. */
  lemma FeesOfGroupAreAllocated(e: Entry, fees: seq<Fee>, group: seq<Member>, c: Confidence, reasons: seq<Reason>)
    requires e.amount > 0 && group != [] && forall m | m in group :: TakesPart(fees, m.id)
    ensures Allocated(e, FeesFor(e, fees, group), c, reasons).Some?
    ensures var s := Allocated(e, FeesFor(e, fees, group), c, reasons).value;
      && s.confidence == c && (forall r | r !in {Overpaid, Partial} :: r in s.reasons <==> r in reasons)
      && forall a | a in s.allocations :: IsToGroup(a, group, group, fees, false)
  {
    var list := FeesFor(e, fees, group);
    FeesForMeans(e, fees, group);
    assert group[0] in group;
    var owed :| owed in fees && owed.member == group[0].id && owed.amount > 0;
    assert owed in list;
    AllocatedMeans(e, list, c, reasons);
    forall a | a in Allocated(e, list, c, reasons).value.allocations ensures IsToGroup(a, group, group, fees, false) {
      var f :| f in list && f.id == a.fee;
      var m :| m in group && m.id == f.member;
      assert IsTo(a, fees, m);
    }
  }

  /** If one fee of an identified member is the whole entry, the suggestion is certain. */
  lemma WholeFeeIsCertain(e: Entry, members: seq<Member>, fees: seq<Fee>, hits: Hits, m: Member, f: Fee)
    requires e.amount > 0 && !IsDecidedById(e, fees, hits) && IsIdentified(members, fees, hits, m)
    requires f in fees && f.member == m.id && f.amount == e.amount
    ensures Suggested(e, members, fees, hits).Some? && Suggested(e, members, fees, hits).value.confidence == Certain
  {
    NoIdIsFound(fees, hits);
    GroupsMean(e, members, fees, hits);
    var all := Select(members, TakingPart(e, fees));
    var strong := Select(all, Strong(hits));
    OneFeeIsExact(e, strong, all, fees, f, m);
    var list := ExactFees(e, strong, all, fees).value.0;
    AllocatedMeans(e, list, Certain, StrongReasons(hits, strong) + [Amount]);
    AllocatedMeans(e, list, Certain, StrongReasons(hits, strong) + [Amount, Household]);
  }

  /** All those named in one way are one member or one household. */
  ghost predicate AreTogether(members: seq<Member>, fees: seq<Fee>, hits: Hits) {
    || (forall m, n :: IsCalled(members, fees, hits, m) && IsCalled(members, fees, hits, n) ==>
          m == n || ShareHousehold(m, n))
    || (forall m, n :: HasSurname(members, fees, hits, m) && HasSurname(members, fees, hits, n) ==>
          m == n || ShareHousehold(m, n))
  }

  lemma TogetherMeans(group: seq<Member>)
    requires group != []
    ensures SameHousehold(group) ==> forall m, n | m in group && n in group :: m == n || ShareHousehold(m, n)
  {
  }

  /** A suggestion by name: with the amount probable, without it unclear. */
  ghost predicate IsRightByName(s: Suggestion, members: seq<Member>, fees: seq<Fee>, hits: Hits) {
    && s.confidence == (if Amount in s.reasons then Probable else Unclear)
    && Name in s.reasons && MemberNumber !in s.reasons && Iban !in s.reasons && EndToEndId !in s.reasons
    && (s.confidence == Probable ==> AreTogether(members, fees, hits))
    && forall a | a in s.allocations :: IsToNamed(a, members, fees, hits, Household in s.reasons)
  }

  /**
   * Without an identified member a suggestion is by name and never certain. It is probable only if those named are one
   * member or one household, and goes to members that are named, or to their households if it says so.
   */
  lemma NamesDecide(e: Entry, members: seq<Member>, fees: seq<Fee>, hits: Hits)
    requires e.amount > 0 && !IsDecidedById(e, fees, hits) && !AnyIdentified(members, fees, hits)
    ensures Suggested(e, members, fees, hits).Some? ==>
      IsRightByName(Suggested(e, members, fees, hits).value, members, fees, hits)
    ensures (exists m :: IsCalled(members, fees, hits, m)) ==> Suggested(e, members, fees, hits).Some?
  {
    NoIdIsFound(fees, hits);
    GroupsMean(e, members, fees, hits);
    var all := Select(members, TakingPart(e, fees));
    NobodyIdentified(Select(all, Strong(hits)), members, fees, hits);
    MatchByNameMeans(e, members, fees, hits, Select(all, Named(hits)), Select(all, Surnamed(hits)), all);
  }

  lemma MatchByNameMeans(e: Entry, members: seq<Member>, fees: seq<Fee>, hits: Hits, named: seq<Member>,
                         surnamed: seq<Member>, all: seq<Member>)
    requires e.amount > 0 && forall m | m in all :: m in members
    requires forall m :: m in named <==> IsCalled(members, fees, hits, m)
    requires forall m :: m in surnamed <==> HasSurname(members, fees, hits, m)
    ensures MatchByName(e, named, surnamed, all, fees).Some? ==>
      IsRightByName(MatchByName(e, named, surnamed, all, fees).value, members, fees, hits)
    ensures named != [] ==> MatchByName(e, named, surnamed, all, fees).Some?
  {
    if NamedMatch(e, named, all, fees).Some? {
      NamedMatchMeans(e, members, fees, hits, named, all);
    } else if NamedMatch(e, surnamed, all, fees).Some? {
      NamedMatchMeans(e, members, fees, hits, surnamed, all);
    } else if named != [] {
      FeesOfGroupAreAllocated(e, fees, named, Unclear, [Name]);
      GroupIsNamed(members, fees, hits, named, all, Allocated(e, FeesFor(e, fees, named), Unclear, [Name]).value);
    }
  }

  lemma NobodyIdentified(strong: seq<Member>, members: seq<Member>, fees: seq<Fee>, hits: Hits)
    requires forall m | m in strong :: IsIdentified(members, fees, hits, m)
    ensures strong != [] ==> AnyIdentified(members, fees, hits)
  {
    if strong != [] {
      assert strong[0] in strong;
    }
  }

  /** A match by name: of a group that is called, or of one that has the surname. */
  lemma NamedMatchMeans(e: Entry, members: seq<Member>, fees: seq<Fee>, hits: Hits, group: seq<Member>,
                        all: seq<Member>)
    requires e.amount > 0 && NamedMatch(e, group, all, fees).Some? && forall m | m in all :: m in members
    requires || (forall m :: m in group <==> IsCalled(members, fees, hits, m))
             || (forall m :: m in group <==> HasSurname(members, fees, hits, m))
    ensures var s := NamedMatch(e, group, all, fees).value;
      && s.confidence == Probable && AreTogether(members, fees, hits) && Amount in s.reasons
      && (forall r | r !in {Amount, Household, Overpaid, Partial} :: r in s.reasons <==> r == Name)
      && forall a | a in s.allocations :: IsToNamed(a, members, fees, hits, Household in s.reasons)
  {
    ExactMeans(e, group, all, fees, Probable, [Name]);
    TogetherMeans(group);
    GroupIsNamed(members, fees, hits, group, all, NamedMatch(e, group, all, fees).value);
  }

  /** Two places of a selection are two places of the list. */
  lemma {:induction false} SelectedTwice(members: seq<Member>, group: Group, p: nat, q: nat)
    requires p < q < |Select(members, group)|
    ensures exists i: nat, j: nat ::
      (i < j < |members| && members[i] == Select(members, group)[p] && members[j] == Select(members, group)[q])
  {
    var k := |members| - 1;
    var before := Select(members[..k], group);
    if q < |before| {
      SelectedTwice(members[..k], group, p, q);
    } else {
      SelectMeans(members[..k], group);
      assert before[p] in members[..k];
      var i: nat :| i < k && members[i] == before[p];
    }
  }

  /** Of all entries of the member list that are called, any two share a household. */
  ghost predicate CalledAreTogether(members: seq<Member>, fees: seq<Fee>, hits: Hits) {
    forall i: nat, j: nat ::
      (i < j < |members| && IsCalled(members, fees, hits, members[i]) && IsCalled(members, fees, hits, members[j]))
      ==> ShareHousehold(members[i], members[j])
  }

  lemma CalledAreSameHousehold(e: Entry, members: seq<Member>, fees: seq<Fee>, hits: Hits)
    requires CalledAreTogether(members, fees, hits)
    ensures var named := Select(Select(members, TakingPart(e, fees)), Named(hits));
      named != [] ==> SameHousehold(named)
  {
    GroupsMean(e, members, fees, hits);
    var all := Select(members, TakingPart(e, fees));
    var named := Select(all, Named(hits));
    forall q: nat | 0 < q < |named| ensures ShareHousehold(named[0], named[q]) {
      SelectedTwice(all, Named(hits), 0, q);
      var a: nat, b: nat :| a < b < |all| && all[a] == named[0] && all[b] == named[q];
      SelectedTwice(members, TakingPart(e, fees), a, b);
      assert named[0] in named && named[q] in named;
    }
    if |named| > 1 {
      assert ShareHousehold(named[0], named[1]);
    }
  }

  /** If those called are one member or one household, one fee of theirs that is the whole entry makes it probable. */
  lemma WholeFeeIsProbable(e: Entry, members: seq<Member>, fees: seq<Fee>, hits: Hits, m: Member, f: Fee)
    requires e.amount > 0 && !IsDecidedById(e, fees, hits) && !AnyIdentified(members, fees, hits)
    requires CalledAreTogether(members, fees, hits) && IsCalled(members, fees, hits, m)
    requires f in fees && f.member == m.id && f.amount == e.amount
    ensures Suggested(e, members, fees, hits).Some? && Suggested(e, members, fees, hits).value.confidence == Probable
  {
    NoIdIsFound(fees, hits);
    GroupsMean(e, members, fees, hits);
    CalledAreSameHousehold(e, members, fees, hits);
    var all := Select(members, TakingPart(e, fees));
    NobodyIdentified(Select(all, Strong(hits)), members, fees, hits);
    var named := Select(all, Named(hits));
    OneFeeIsExact(e, named, all, fees, f, m);
    var list := ExactFees(e, named, all, fees).value.0;
    AllocatedMeans(e, list, Probable, [Name, Amount]);
    AllocatedMeans(e, list, Probable, [Name, Amount, Household]);
    assert [Name] + [Amount] == [Name, Amount] && [Name] + [Amount, Household] == [Name, Amount, Household];
  }

  ghost predicate IsToNamed(a: Allocation, members: seq<Member>, fees: seq<Fee>, hits: Hits, byHousehold: bool) {
    exists m :: m in members && IsTo(a, fees, m) &&
      if byHousehold then exists g :: IsNamed(members, fees, hits, g) && ShareHousehold(g, m)
      else IsNamed(members, fees, hits, m)
  }

  /** Nobody named and nobody identified: nothing is suggested. */
  lemma NobodyIsSuggested(e: Entry, members: seq<Member>, fees: seq<Fee>, hits: Hits)
    requires !IsDecidedById(e, fees, hits) && !AnyIdentified(members, fees, hits)
    requires forall m :: !IsNamed(members, fees, hits, m)
    ensures Suggested(e, members, fees, hits) == None
  {
    if e.amount > 0 {
      NoIdIsFound(fees, hits);
      GroupsMean(e, members, fees, hits);
      var all := Select(members, TakingPart(e, fees));
      NobodyIdentified(Select(all, Strong(hits)), members, fees, hits);
      NobodyIn(Select(all, Named(hits)), members, fees, hits);
      NobodyIn(Select(all, Surnamed(hits)), members, fees, hits);
    }
  }

  lemma NobodyIn(group: seq<Member>, members: seq<Member>, fees: seq<Fee>, hits: Hits)
    requires forall m | m in group :: IsNamed(members, fees, hits, m)
    ensures (forall m :: !IsNamed(members, fees, hits, m)) ==> group == []
  {
    if group != [] {
      assert group[0] in group;
    }
  }

  lemma NotById(e: Entry, members: seq<Member>, fees: seq<Fee>, hits: Hits)
    requires Suggested(e, members, fees, hits).Some? && !IsDecidedById(e, fees, hits)
    ensures EndToEndId !in Suggested(e, members, fees, hits).value.reasons
  {
    if AnyIdentified(members, fees, hits) {
      IdentifiedDecide(e, members, fees, hits);
    } else {
      NamesDecide(e, members, fees, hits);
    }
  }

  /** What earns a suggestion the confidence certain: the end-to-end ID of a return, or a number or an IBAN. */
  lemma CertainMeans(e: Entry, members: seq<Member>, fees: seq<Fee>, hits: Hits)
    requires Suggested(e, members, fees, hits).Some?
    requires Suggested(e, members, fees, hits).value.confidence == Certain
    ensures var s := Suggested(e, members, fees, hits).value;
      || (EndToEndId in s.reasons && IsDecidedById(e, fees, hits))
      || (EndToEndId !in s.reasons && AnyIdentified(members, fees, hits) &&
          forall a | a in s.allocations :: IsToIdentified(a, members, fees, hits, Household in s.reasons))
  {
    if IsDecidedById(e, fees, hits) {
      IdDecides(e, members, fees, hits);
    } else if AnyIdentified(members, fees, hits) {
      IdentifiedDecide(e, members, fees, hits);
    } else {
      NamesDecide(e, members, fees, hits);
    }
  }
}
