/** The contract between the matcher and the ledger, and the loop that confirms every certain suggestion. */
module CertainLoop {
  import opened Wrappers
  import opened Ledger
  import opened LedgerRuns
  import opened LedgerStore
  import M = Matching
  import T = MatchingTerms

  /** What a fee is matched by: the member that owes it and its due date. */
  datatype FeeInfo = FeeInfo(member: M.MemberId, due: Day)

  /** Besides the ledger, matching reads members, fees by member, entries newest first, and what their texts say. */
  datatype Club = Club(members: seq<M.Member>, fees: seq<FeeId>, info: map<FeeId, FeeInfo>, entries: seq<TxId>,
                       hits: map<TxId, M.Hits>)

  predicate WellFormed(club: Club) {
    && M.DistinctMembers(club.members)
    && (forall i, j | 0 <= i < j < |club.fees| :: club.fees[i] != club.fees[j])
    && (forall f | f in club.fees :: f in club.info)
  }

  // ---------- Suggesting ----------

  function AmountFor(fee: Fee, links: seq<Link>, isReturn: bool): int {
    var paid := PaidCents(fee, links);
    if isReturn then (if paid < fee.amount then paid else fee.amount)
    else if OpenFee(fee, links) then fee.amount - paid
    else 0
  }

  predicate IsCandidate(l: Ledger, f: FeeId, isReturn: bool) {
    LiveFee(l, f) && !l.fees[f].memberDeleted && AmountFor(l.fees[f], Links(l, f), isReturn) > 0
  }

  /** The fees an entry is matched against, among the first `n`. */
  function CandidateFees(l: Ledger, club: Club, isReturn: bool, n: nat): seq<M.Fee>
    requires WellFormed(club) && n <= |club.fees|
  {
    if n == 0 then []
    else
      var f, before := club.fees[n - 1], CandidateFees(l, club, isReturn, n - 1);
      if IsCandidate(l, f, isReturn) then
        before + [M.Fee(f, club.info[f].member, AmountFor(l.fees[f], Links(l, f), isReturn), club.info[f].due)]
      else before
  }

  function HitsOf(club: Club, tx: TxId): M.Hits {
    if tx in club.hits then club.hits[tx] else M.Hits({}, {}, {}, {}, {})
  }

  /** What is left to pay of a fee, and what a return may take back of it. */
  function Due(fee: Fee, links: seq<Link>): int {
    if fee.paidDate.Some? || fee.inCollection then 0 else fee.amount - SinceReturn(links)
  }

  function Returnable(fee: Fee, links: seq<Link>): int {
    if fee.paidDate.Some? || SinceReturn(links) > fee.amount then fee.amount else SinceReturn(links)
  }

  /** The candidates: every live fee of a member that is not deleted with any cent to assign, with that amount. */
  lemma {:induction false} CandidatesMean(l: Ledger, club: Club, isReturn: bool, n: nat, c: M.Fee)
    requires WellFormed(club) && n <= |club.fees|
    ensures c in CandidateFees(l, club, isReturn, n) <==>
      && c.id in club.fees[..n] && c.id in l.fees && !l.fees[c.id].deleted && !l.fees[c.id].memberDeleted
      && c.member == club.info[c.id].member && c.due == club.info[c.id].due
      && c.amount == (if isReturn then Returnable(l.fees[c.id], Links(l, c.id)) else Due(l.fees[c.id], Links(l, c.id)))
      && c.amount > 0
  {
    if n > 0 {
      CandidatesMean(l, club, isReturn, n - 1, c);
      assert club.fees[..n] == club.fees[..n - 1] + [club.fees[n - 1]];
      assert c.id in club.fees[..n - 1] ==> c.id != club.fees[n - 1];
    }
  }

  function Suggested(l: Ledger, club: Club, tx: TxId): Option<M.Suggestion>
    requires WellFormed(club)
  {
    if !OpenEntry(l, tx) then None
    else
      var isReturn := l.txs[tx].isReturn;
      M.Suggested(M.Entry(l.txs[tx].amount, isReturn), club.members, CandidateFees(l, club, isReturn, |club.fees|),
                  HitsOf(club, tx))
  }

  function Confirming(s: M.Suggestion): seq<Allocation> {
    var matched := s.allocations;
    seq(|matched|, i requires 0 <= i < |matched| => Allocation(matched[i].fee, matched[i].amount))
  }

  lemma {:induction false} CandidatesFit(l: Ledger, club: Club, isReturn: bool, n: nat)
    requires WellFormed(club) && n <= |club.fees|
    ensures var fees := CandidateFees(l, club, isReturn, n);
      && M.DistinctFees(fees) && M.AllPositive(fees)
      && forall f | f in fees ::
           && f.id in club.fees[..n]
           && IsCandidate(l, f.id, isReturn)
           && f.amount == AmountFor(l.fees[f.id], Links(l, f.id), isReturn)
  {
    if n > 0 {
      CandidatesFit(l, club, isReturn, n - 1);
      var before := CandidateFees(l, club, isReturn, n - 1);
      assert club.fees[..n] == club.fees[..n - 1] + [club.fees[n - 1]];
      assert forall f | f in before :: f.id != club.fees[n - 1];
      assert forall i | 0 <= i < |before| :: before[i] in before;
    }
  }

  lemma {:induction false} SameTotal(allocations: seq<Allocation>, matched: seq<M.Allocation>)
    requires |allocations| == |matched|
    requires forall i | 0 <= i < |matched| :: allocations[i].amount == matched[i].amount
    ensures Total(allocations) == M.Total(matched)
  {
    if matched != [] {
      SameTotal(allocations[..|matched| - 1], matched[..|matched| - 1]);
    }
  }

  /** Every suggestion passes all checks of a confirmation. */
  lemma SuggestionIsConfirmable(l: Ledger, club: Club, tx: TxId)
    requires WellFormed(club) && Suggested(l, club, tx).Some?
    ensures Confirmable(l, tx, Confirming(Suggested(l, club, tx).value))
  {
    var isReturn, s := l.txs[tx].isReturn, Suggested(l, club, tx).value;
    var allocations, fees := Confirming(s), CandidateFees(l, club, isReturn, |club.fees|);
    CandidatesFit(l, club, isReturn, |club.fees|);
    M.SuggestionFits(M.Entry(l.txs[tx].amount, isReturn), club.members, fees, HitsOf(club, tx));
    SameTotal(allocations, s.allocations);
    forall a | a in allocations ensures a.amount > 0 && Assignable(l, a, isReturn) {
      var i :| 0 <= i < |allocations| && allocations[i] == a;
      assert s.allocations[i] in s.allocations;
      var f :| f in fees && f.id == s.allocations[i].fee && s.allocations[i].amount <= f.amount;
    }
  }

  /** Confirming a certain payment suggestion leaves nothing unassigned and every assigned fee paid. */
  lemma CertainPaymentSettles(l: Ledger, club: Club, tx: TxId)
    requires WellFormed(club) && Suggested(l, club, tx).Some? && Suggested(l, club, tx).value.confidence.Certain?
    requires !l.txs[tx].isReturn
    ensures var allocations := Confirming(Suggested(l, club, tx).value);
      && Confirmable(l, tx, allocations)
      && Total(allocations) == l.txs[tx].amount
      && var l' := Confirmed(l, tx, allocations);
         forall a | a in allocations :: a.fee in l'.fees && l'.fees[a.fee].paidDate.Some?
  {
    var s := Suggested(l, club, tx).value;
    var allocations, fees := Confirming(s), CandidateFees(l, club, false, |club.fees|);
    SuggestionIsConfirmable(l, club, tx);
    CandidatesFit(l, club, false, |club.fees|);
    M.SuggestionFits(M.Entry(l.txs[tx].amount, false), club.members, fees, HitsOf(club, tx));
    M.CertainPaymentIsExact(M.Entry(l.txs[tx].amount, false), club.members, fees, HitsOf(club, tx));
    SameTotal(allocations, s.allocations);
    var l' := Confirmed(l, tx, allocations);
    forall a | a in allocations ensures a.fee in l'.fees && l'.fees[a.fee].paidDate.Some? {
      var k :| 0 <= k < |allocations| && allocations[k] == a;
      assert s.allocations[k] in s.allocations;
      var f :| f in fees && f.id == a.fee && a.amount <= f.amount;
      FullPaymentPays(l, tx, allocations, k);
    }
  }

  lemma FullPaymentPays(l: Ledger, tx: TxId, allocations: seq<Allocation>, k: nat)
    requires Confirmable(l, tx, allocations) && k < |allocations| && !l.txs[tx].isReturn
    requires var f := allocations[k].fee;
      f in l.fees && allocations[k].amount == l.fees[f].amount - PaidCents(l.fees[f], Links(l, f))
    ensures var f, l' := allocations[k].fee, Confirmed(l, tx, allocations);
      f in l'.fees && l'.fees[f].paidDate.Some?
  {
    var a := allocations[k];
    assert a in allocations && Assignable(l, a, false);
    ConfirmedFee(l, tx, allocations, a.fee);
    var links := Links(l, a.fee) + [NewLink(l, tx, a)];
    assert links[..|links| - 1] == Links(l, a.fee);
    LastPaymentIsSome(links);
  }

  // ---------- The loop ----------

  /** A transaction from a bank statement that waits for review, told by its own fields. */
  ghost predicate IsWaiting(l: Ledger, tx: TxId) {
    && tx in l.txs && !l.txs[tx].deleted && l.txs[tx].imported && !l.txs[tx].dismissed
    && (l.txs[tx].income || l.txs[tx].isReturn)
    && forall p | p in l.payments && p.tx == tx && !p.deleted :: p.fee !in l.fees || l.fees[p.fee].deleted
  }

  lemma OpenMeansWaiting(l: Ledger, tx: TxId)
    ensures OpenEntry(l, tx) <==> IsWaiting(l, tx)
  {
    if HasPayments(l, tx) {
      var i :| 0 <= i < |l.payments| &&
               l.payments[i].tx == tx && !l.payments[i].deleted && LiveFee(l, l.payments[i].fee);
      assert l.payments[i] in l.payments;
    }
    if p :| p in l.payments && p.tx == tx && !p.deleted && p.fee in l.fees && !l.fees[p.fee].deleted {
      var i :| 0 <= i < |l.payments| && l.payments[i] == p;
      assert l.payments[i].tx == tx && !l.payments[i].deleted && LiveFee(l, l.payments[i].fee);
    }
  }

  lemma {:induction false} RunKeepsEntries(l: Ledger, run: seq<Confirmation>, tx: TxId)
    requires CanRun(l, run)
    ensures var l' := AfterRun(l, run);
      && (HasPayments(l, tx) ==> HasPayments(l', tx))
      && (tx in l'.txs <==> tx in l.txs)
      && (tx in l.txs ==> l'.txs[tx] == l.txs[tx] || HasPayments(l', tx))
    decreases |run|
  {
    if run != [] {
      var l' := Confirmed(l, run[0].tx, run[0].allocations);
      RunKeepsEntries(l', run[1..], tx);
      if HasPayments(l, tx) {
        KeepsPayments(l, run[0].tx, run[0].allocations, tx);
      }
      if tx == run[0].tx {
        ConfirmedHasPayments(l, run[0].tx, run[0].allocations);
      }
    }
  }

  /** Only entries that were waiting when the run began are confirmed by it: none of them had been dismissed. */
  lemma ConfirmedEntriesWereWaiting(l: Ledger, club: Club, run: seq<Confirmation>, i: nat)
    requires WellFormed(club) && IsCertainRun(l, club, run) && i < |run|
    ensures IsWaiting(l, run[i].tx) && run[i].tx in club.entries
  {
    var before := AfterRun(l, run[..i]);
    assert CanRun(l, run[..i]) && IsNext(before, club, run[i]);
    RunKeepsEntries(l, run[..i], run[i].tx);
    OpenMeansWaiting(l, run[i].tx);
    NextCertainIsListed(before, club, |club.entries|);
  }

  lemma {:induction false} NextCertainIsListed(l: Ledger, club: Club, n: nat)
    requires WellFormed(club) && n <= |club.entries|
    ensures NextCertain(l, club, n).Some? ==> NextCertain(l, club, n).value in club.entries
  {
    if n > 0 {
      NextCertainIsListed(l, club, n - 1);
    }
  }

  /** What a certain payment shares with the member it is booked for: the number or the IBAN, or the household has. */
  lemma CertainPaymentIsIdentified(l: Ledger, club: Club, tx: TxId)
    requires WellFormed(club) && IsCertain(l, club, tx) && !l.txs[tx].isReturn
    ensures var s, fees := Suggested(l, club, tx).value, CandidateFees(l, club, false, |club.fees|);
      forall a | a in s.allocations ::
        T.IsToIdentified(a, club.members, fees, HitsOf(club, tx), M.Household in s.reasons)
  {
    var e := M.Entry(l.txs[tx].amount, false);
    T.CertainMeans(e, club.members, CandidateFees(l, club, false, |club.fees|), HitsOf(club, tx));
    T.NotById(e, club.members, CandidateFees(l, club, false, |club.fees|), HitsOf(club, tx));
  }

  predicate IsCertain(l: Ledger, club: Club, tx: TxId)
    requires WellFormed(club)
  {
    Suggested(l, club, tx).Some? && Suggested(l, club, tx).value.confidence.Certain?
  }

  /** The oldest entry with a certain suggestion among the first `n`; entries are newest first. */
  function NextCertain(l: Ledger, club: Club, n: nat): Option<TxId>
    requires WellFormed(club) && n <= |club.entries|
  {
    if n == 0 then None
    else if IsCertain(l, club, club.entries[n - 1]) then Some(club.entries[n - 1])
    else NextCertain(l, club, n - 1)
  }

  lemma {:induction false} NoneIsCertain(l: Ledger, club: Club, n: nat, i: nat)
    requires WellFormed(club) && i < n <= |club.entries| && IsCertain(l, club, club.entries[i])
    ensures NextCertain(l, club, n).Some?
  {
    if i < n - 1 && !IsCertain(l, club, club.entries[n - 1]) {
      NoneIsCertain(l, club, n - 1, i);
    }
  }

  /** A waiting payment that names the number or IBAN of a member and is what one of its fees still needs is found. */
  lemma IdentifiedPaymentIsFound(l: Ledger, club: Club, tx: TxId, m: M.Member, f: FeeId)
    requires WellFormed(club) && IsWaiting(l, tx) && tx in club.entries && tx in club.hits && !l.txs[tx].isReturn
    requires m in club.members && m.id in club.hits[tx].number + club.hits[tx].iban
    requires f in club.fees && f in l.fees && !l.fees[f].deleted && !l.fees[f].memberDeleted
    requires club.info[f].member == m.id
    requires l.txs[tx].amount > 0 && Due(l.fees[f], Links(l, f)) == l.txs[tx].amount
    ensures IsCertain(l, club, tx) && NextCertain(l, club, |club.entries|).Some?
  {
    OpenMeansWaiting(l, tx);
    var n, e, fee := |club.fees|, M.Entry(l.txs[tx].amount, false), M.Fee(f, m.id, l.txs[tx].amount, club.info[f].due);
    assert club.fees[..n] == club.fees;
    CandidatesMean(l, club, false, n, fee);
    T.WholeFeeIsCertain(e, club.members, CandidateFees(l, club, false, n), HitsOf(club, tx), m, fee);
    var i :| 0 <= i < |club.entries| && club.entries[i] == tx;
    NoneIsCertain(l, club, |club.entries|, i);
  }

  function OpenEntries(l: Ledger): set<TxId> {
    set tx | tx in l.txs && OpenEntry(l, tx)
  }

  /** The confirmation of the oldest entry with a certain suggestion. */
  predicate IsNext(l: Ledger, club: Club, c: Confirmation)
    requires WellFormed(club)
  {
    && NextCertain(l, club, |club.entries|) == Some(c.tx)
    && Suggested(l, club, c.tx).Some?
    && c.allocations == Confirming(Suggested(l, club, c.tx).value)
    && Confirmable(l, c.tx, c.allocations)
  }

  /** Each confirmation of the run was the next one when its turn came. */
  predicate IsCertainRun(l: Ledger, club: Club, run: seq<Confirmation>)
    requires WellFormed(club)
  {
    forall i: nat | i < |run| :: CanRun(l, run[..i]) && IsNext(AfterRun(l, run[..i]), club, run[i])
  }

  lemma {:induction false} RunGrows(l: Ledger, run: seq<Confirmation>, c: Confirmation)
    requires CanRun(l, run) && Confirmable(AfterRun(l, run), c.tx, c.allocations)
    ensures CanRun(l, run + [c])
    ensures AfterRun(l, run + [c]) == Confirmed(AfterRun(l, run), c.tx, c.allocations)
    decreases |run|
  {
    if run == [] {
      var l' := Confirmed(l, c.tx, c.allocations);
      assert run + [c] == [c] && [c][1..] == [];
      assert CanRun(l', []) && AfterRun(l', []) == l';
    } else {
      assert (run + [c])[0] == run[0] && (run + [c])[1..] == run[1..] + [c];
      RunGrows(Confirmed(l, run[0].tx, run[0].allocations), run[1..], c);
    }
  }

  lemma CertainRunGrows(l: Ledger, club: Club, run: seq<Confirmation>, c: Confirmation)
    requires WellFormed(club) && IsCertainRun(l, club, run) && CanRun(l, run) && IsNext(AfterRun(l, run), club, c)
    ensures IsCertainRun(l, club, run + [c])
  {
    var grown := run + [c];
    forall i: nat | i < |grown| ensures CanRun(l, grown[..i]) && IsNext(AfterRun(l, grown[..i]), club, grown[i]) {
      assert grown[..i] == run[..i];
      assert run[..|run|] == run;
    }
  }

  lemma {:induction false} NextCertainIsCertain(l: Ledger, club: Club, n: nat)
    requires WellFormed(club) && n <= |club.entries|
    ensures var next := NextCertain(l, club, n);
      if next.Some? then IsCertain(l, club, next.value)
      else forall i: nat | i < n :: !IsCertain(l, club, club.entries[i])
  {
    if n > 0 {
      var last := club.entries[n - 1];
      if !IsCertain(l, club, last) {
        assert NextCertain(l, club, n) == NextCertain(l, club, n - 1);
        NextCertainIsCertain(l, club, n - 1);
      }
    }
  }

  /** A confirmation closes its own entry and opens or closes no other. */
  lemma ConfirmingClosesOneEntry(l: Ledger, tx: TxId, allocations: seq<Allocation>)
    requires Confirmable(l, tx, allocations) && OpenEntry(l, tx)
    ensures OpenEntries(Confirmed(l, tx, allocations)) == OpenEntries(l) - {tx}
    ensures |OpenEntries(Confirmed(l, tx, allocations))| == |OpenEntries(l)| - 1
  {
    var l' := Confirmed(l, tx, allocations);
    ConfirmedHasPayments(l, tx, allocations);
    forall other | other != tx ensures HasPayments(l', other) == HasPayments(l, other) {
      OthersKeepPayments(l, tx, allocations, other);
      if HasPayments(l, other) {
        KeepsPayments(l, tx, allocations, other);
      }
    }
    assert OpenEntries(l') == OpenEntries(l) - {tx};
  }

  lemma KeepsPayments(l: Ledger, tx: TxId, allocations: seq<Allocation>, other: TxId)
    requires Confirmable(l, tx, allocations) && HasPayments(l, other)
    ensures HasPayments(Confirmed(l, tx, allocations), other)
  {
    var l' := Confirmed(l, tx, allocations);
    var i: nat :| i < |l.payments| &&
      l.payments[i].tx == other && !l.payments[i].deleted && LiveFee(l, l.payments[i].fee);
    ConfirmedFee(l, tx, allocations, l.payments[i].fee);
    assert l'.payments[i] == l.payments[i] && LiveFee(l', l'.payments[i].fee);
  }

  /** Builds the list of fees an entry is matched against. */
  method LoadCandidates(l: Ledger, club: Club, isReturn: bool) returns (fees: seq<M.Fee>)
    requires WellFormed(club)
    ensures fees == CandidateFees(l, club, isReturn, |club.fees|)
  {
    fees := [];
    for i := 0 to |club.fees|
      invariant fees == CandidateFees(l, club, isReturn, i)
    {
      var f := club.fees[i];
      if IsCandidate(l, f, isReturn) {
        fees := fees + [M.Fee(f, club.info[f].member, AmountFor(l.fees[f], Links(l, f), isReturn), club.info[f].due)];
      }
    }
  }

  method Suggest(l: Ledger, club: Club, tx: TxId) returns (s: Option<M.Suggestion>)
    requires WellFormed(club)
    ensures s == Suggested(l, club, tx)
  {
    if !OpenEntry(l, tx) {
      return None;
    }
    var fees := LoadCandidates(l, club, l.txs[tx].isReturn);
    s := M.Match(M.Entry(l.txs[tx].amount, l.txs[tx].isReturn), club.members, fees, HitsOf(club, tx));
  }

  method FindNext(l: Ledger, club: Club, done: set<TxId>) returns (next: Option<Confirmation>)
    requires WellFormed(club) && forall tx | tx in done :: HasPayments(l, tx)
    ensures match NextCertain(l, club, |club.entries|)
      case None => next.None?
      case Some(tx) =>
        next.Some? && next.value.tx == tx && Suggested(l, club, tx).Some? &&
        next.value.allocations == Confirming(Suggested(l, club, tx).value)
  {
    for i := |club.entries| downto 0
      invariant NextCertain(l, club, |club.entries|) == NextCertain(l, club, i)
    {
      var tx := club.entries[i];
      var s := Suggest(l, club, tx);
      if tx !in done && s.Some? && s.value.confidence.Certain? {
        return Some(Confirmation(tx, Confirming(s.value)));
      }
    }
    return None;
  }

  /**
   * Confirms the certain suggestions, oldest entry first, matching again after each one. No confirmation is ever
   * rejected, and afterwards no entry has a certain suggestion.
   */
  method ConfirmCertain(store: Store, club: Club) returns (run: seq<Confirmation>, r: Result<(), Error>)
    requires WellFormed(club) && store.Valid()
    modifies store
    ensures r.Ok? && store.Valid()
    ensures IsCertainRun(old(store.State()), club, run) && CanRun(old(store.State()), run)
    ensures store.State() == AfterRun(old(store.State()), run)
    ensures |OpenEntries(store.State())| == |OpenEntries(old(store.State()))| - |run|
    ensures forall tx | tx in club.entries :: !IsCertain(store.State(), club, tx)
  {
    ghost var start := store.State();
    run := [];
    var done := {};
    while true
      invariant store.Valid()
      invariant IsCertainRun(start, club, run) && CanRun(start, run) && store.State() == AfterRun(start, run)
      invariant |OpenEntries(store.State())| == |OpenEntries(start)| - |run|
      invariant forall tx | tx in done :: HasPayments(store.State(), tx)
      decreases |OpenEntries(store.State())|
    {
      ghost var l := store.State();
      var next := FindNext(store.State(), club, done);
      NextCertainIsCertain(l, club, |club.entries|);
      if next.None? {
        return run, Ok(());
      }
      var c := next.value;
      SuggestionIsConfirmable(l, club, c.tx);
      done := done + {c.tx};
      r := store.ConfirmReconciliation(c.tx, c.allocations);
      if r.Err? {
        return;
      }
      RunGrows(start, run, c);
      CertainRunGrows(start, club, run, c);
      ConfirmingClosesOneEntry(l, c.tx, c.allocations);
      ConfirmedHasPayments(l, c.tx, c.allocations);
      forall tx | tx in done ensures HasPayments(store.State(), tx) {
        if tx != c.tx {
          KeepsPayments(l, c.tx, c.allocations, tx);
        }
      }
      run := run + [c];
    }
  }
}
