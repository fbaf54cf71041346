/**
  Sending an e-mail to many recipients: when a send fails, the list is cut in half until the recipients that cannot be
  reached are found. An e-mail has either `to` or `bcc` recipients; both are cut in the same way.
 */
module EmailService {
  import opened Domain

  /** `Fatal` stands for the errors of the sending account, which no other list of recipients can avoid. */
  datatype SendOutcome = Sent | Failed | Fatal

  /** How the sending service answers its n-th call. */
  type Answer = (nat, seq<Email>) -> SendOutcome

  /** The recipients that satisfy `p`, in order. */
  function Filter(p: Email -> bool, recipients: seq<Email>): seq<Email> {
    if recipients == [] then []
    else (if p(recipients[0]) then [recipients[0]] else []) + Filter(p, recipients[1..])
  }

  lemma FilterUnfolds(p: Email -> bool, recipients: seq<Email>)
    ensures Filter(p, recipients) ==
            if recipients == [] then []
            else (if p(recipients[0]) then [recipients[0]] else []) + Filter(p, recipients[1..])
  {
  }

  lemma {:induction false} FilterSplits(p: Email -> bool, a: seq<Email>, b: seq<Email>)
    ensures Filter(p, a + b) == Filter(p, a) + Filter(p, b)
  {
    hide Filter;
    FilterUnfolds(p, a);
    if a == [] {
      assert a + b == b;
    } else {
      FilterUnfolds(p, a + b);
      var first := if p(a[0]) then [a[0]] else [];
      assert (a + b)[0] == a[0] && (a + b)[1..] == a[1..] + b;
      FilterSplits(p, a[1..], b);
      assert first + (Filter(p, a[1..]) + Filter(p, b)) == (first + Filter(p, a[1..])) + Filter(p, b);
    }
  }

  lemma {:induction false} FilterAll(p: Email -> bool, recipients: seq<Email>)
    requires forall r :: r in recipients ==> p(r)
    ensures Filter(p, recipients) == recipients
  {
    if recipients != [] {
      FilterAll(p, recipients[1..]);
    }
  }

  lemma {:induction false} FilterNone(p: Email -> bool, recipients: seq<Email>)
    requires forall r :: r in recipients ==> !p(r)
    ensures Filter(p, recipients) == []
  {
    if recipients != [] {
      FilterNone(p, recipients[1..]);
    }
  }

  /** A send fails exactly when its list contains a bad address, and never fatally. */
  ghost predicate FailsOnBad(answer: Answer, bad: Email -> bool) {
    forall call: nat, recipients: seq<Email> ::
      answer(call, recipients) == if exists r :: r in recipients && bad(r) then Failed else Sent
  }

  /** Who has been delivered to, and whose failure has been logged. */
  datatype Record = Record(delivered: seq<Email>, logged: seq<Email>)

  /** Between the two records, every recipient was delivered to or logged, once for every time that it is listed. */
  ghost predicate Accounts(before: Record, after: Record, recipients: seq<Email>) {
    multiset(after.delivered) + multiset(after.logged) ==
    multiset(before.delivered) + multiset(before.logged) + multiset(recipients)
  }

  /** Between the two records, the good recipients were delivered to and the bad ones logged, in order. */
  ghost predicate Separates(before: Record, after: Record, bad: Email -> bool, recipients: seq<Email>) {
    && after.delivered == before.delivered + Filter(r => !bad(r), recipients)
    && after.logged == before.logged + Filter(bad, recipients)
  }

  lemma AccountsChain(r0: Record, r1: Record, r2: Record, first: seq<Email>, second: seq<Email>)
    requires Accounts(r0, r1, first) && Accounts(r1, r2, second)
    ensures Accounts(r0, r2, first + second)
  {
  }

  lemma SeparatesChain(r0: Record, r1: Record, r2: Record, bad: Email -> bool, first: seq<Email>, second: seq<Email>)
    requires Separates(r0, r1, bad, first) && Separates(r1, r2, bad, second)
    ensures Separates(r0, r2, bad, first + second)
  {
    FilterSplits(r => !bad(r), first, second);
    FilterSplits(bad, first, second);
  }

  lemma SentToAll(before: Record, bad: Email -> bool, recipients: seq<Email>)
    requires forall r :: r in recipients ==> !bad(r)
    ensures Separates(before, Record(before.delivered + recipients, before.logged), bad, recipients)
  {
    FilterAll(r => !bad(r), recipients);
    FilterNone(bad, recipients);
  }

  /** What a send is answered depends on its list only, and is never fatal. */
  ghost predicate DependsOnList(answer: Answer) {
    forall call: nat, recipients: seq<Email> ::
      answer(call, recipients) == if Fails(answer)(recipients) then Failed else Sent
  }

  function Fails(answer: Answer): seq<Email> -> bool {
    recipients => answer(0, recipients) == Failed
  }

  /** Whether sending is over within a depth of `fuel` cuts, when the outcome depends on the list only. */
  predicate Finishes(fails: seq<Email> -> bool, recipients: seq<Email>, fuel: nat) {
    fuel > 0
    && (!fails(recipients) || |recipients| == 1 ||
          var mid := |recipients| / 2;
          Finishes(fails, recipients[..mid], fuel - 1) && Finishes(fails, recipients[mid..], fuel - 1))
  }

  /** Even a send to nobody fails, every time. */
  ghost predicate FailsOnNobody(answer: Answer) {
    forall call: nat :: answer(call, []) == Failed
  }

  /** `StillCutting` when the list was to be cut more often than allowed. */
  datatype Ending = Finished | Thrown | StillCutting

  function Pow2(n: nat): (p: nat)
    ensures p >= 1
  {
    if n == 0 then 1 else 2 * Pow2(n - 1)
  }

  lemma Halves(n: nat, depth: nat)
    requires 1 < n <= Pow2(depth)
    ensures depth > 0 && 0 < n / 2 <= Pow2(depth - 1) && 0 < n - n / 2 <= Pow2(depth - 1)
  {
  }

  class NotificationService {
    const answer: Answer
    var sends: seq<SendOutcome>
    var record: Record

    constructor (answer: Answer)
      ensures this.answer == answer && sends == [] && record == Record([], [])
    {
      this.answer, sends, record := answer, [], Record([], []);
    }

    method BatchSendEmail(recipients: seq<Email>) returns (outcome: SendOutcome)
      modifies this
      ensures outcome == answer(|old(sends)|, recipients) && sends == old(sends) + [outcome]
      ensures record ==
              if outcome.Sent? then Record(old(record).delivered + recipients, old(record).logged) else old(record)
    {
      outcome := answer(|sends|, recipients);
      sends := sends + [outcome];
      if outcome == Sent {
        record := Record(record.delivered + recipients, record.logged);
      }
    }

    /**
      Sends to a list, cutting it up to `depth` times into halves. Whatever the service answers: unless a send failed
      fatally every recipient is either delivered to or logged; a nonempty list takes at most two sends less one for each
      recipient, and one of up to 2^k recipients is done after k cuts. If sends fail because of bad addresses, those are
      the ones logged.
     */
    method SendEmail(recipients: seq<Email>, depth: nat, ghost bad: Email -> bool) returns (ending: Ending)
      modifies this
      ensures old(sends) <= sends && (recipients != [] ==> |sends| <= |old(sends)| + 2 * |recipients| - 1)
      ensures ending.Thrown? <==> Fatal in sends[|old(sends)|..]
      ensures ending.Finished? ==> Accounts(old(record), record, recipients)
      ensures FailsOnBad(answer, bad) ==>
                !ending.Thrown? && (ending.Finished? ==> Separates(old(record), record, bad, recipients))
      ensures depth > 0 && 0 < |recipients| <= Pow2(depth - 1) ==> !ending.StillCutting?
      ensures recipients == [] && FailsOnNobody(answer) ==> ending.StillCutting?
      ensures DependsOnList(answer) ==> (ending.Finished? <==> Finishes(Fails(answer), recipients, depth))
      decreases depth, 1
    {
      hide Separates;
      if depth == 0 {
        return StillCutting;
      }
      var outcome := BatchSendEmail(recipients);
      match outcome
      case Sent =>
        ending := Finished;
        if FailsOnBad(answer, bad) {
          SentToAll(old(record), bad, recipients);
        }
      case Fatal =>
        ending := Thrown;
      case Failed =>
        ending := HandleBisectableSendEmailException(recipients, depth, bad);
        assert sends[|old(sends)|..] == [Failed] + sends[|old(sends)| + 1..];
    }

    method HandleBisectableSendEmailException(recipients: seq<Email>, depth: nat, ghost bad: Email -> bool)
      returns (ending: Ending)
      requires depth > 0
      requires FailsOnBad(answer, bad) ==> exists r :: r in recipients && bad(r)
      modifies this
      ensures old(sends) <= sends && (recipients != [] ==> |sends| <= |old(sends)| + 2 * |recipients| - 2)
      ensures ending.Thrown? <==> Fatal in sends[|old(sends)|..]
      ensures ending.Finished? ==> Accounts(old(record), record, recipients)
      ensures FailsOnBad(answer, bad) ==>
                !ending.Thrown? && (ending.Finished? ==> Separates(old(record), record, bad, recipients))
      ensures depth > 0 && 0 < |recipients| <= Pow2(depth - 1) ==> !ending.StillCutting?
      ensures recipients == [] && FailsOnNobody(answer) ==> ending.StillCutting?
      ensures DependsOnList(answer) && Fails(answer)(recipients) ==>
                (ending.Finished? <==> Finishes(Fails(answer), recipients, depth))
      decreases depth, 0
    {
      if |recipients| == 1 {
        record := Record(record.delivered, record.logged + recipients);
        return Finished;
      }
      ending := RetryBisectSendEmail(recipients, depth - 1, bad);
    }

    /** Sends to the halves of a list, which are both empty if the list is. */
    method RetryBisectSendEmail(recipients: seq<Email>, depth: nat, ghost bad: Email -> bool) returns (ending: Ending)
      requires |recipients| != 1
      modifies this
      ensures old(sends) <= sends && (recipients != [] ==> |sends| <= |old(sends)| + 2 * |recipients| - 2)
      ensures ending.Thrown? <==> Fatal in sends[|old(sends)|..]
      ensures ending.Finished? ==> Accounts(old(record), record, recipients)
      ensures FailsOnBad(answer, bad) ==>
                !ending.Thrown? && (ending.Finished? ==> Separates(old(record), record, bad, recipients))
      ensures 0 < |recipients| <= Pow2(depth) ==> !ending.StillCutting?
      ensures recipients == [] && FailsOnNobody(answer) ==> ending.StillCutting?
      ensures DependsOnList(answer) ==>
                (ending.Finished? <==>
                   && Finishes(Fails(answer), recipients[..|recipients| / 2], depth)
                   && Finishes(Fails(answer), recipients[|recipients| / 2..], depth))
      decreases depth, 2
    {
      hide Separates, Accounts, FailsOnBad, FailsOnNobody, Pow2, Finishes;
      var mid := |recipients| / 2;
      if 1 < |recipients| <= Pow2(depth) {
        Halves(|recipients|, depth);
      }
      ending := SendEmail(recipients[..mid], depth, bad);
      if !ending.Finished? {
        return;
      }
      ghost var between, sent := record, sends;
      ending := SendEmail(recipients[mid..], depth, bad);
      assert recipients == recipients[..mid] + recipients[mid..];
      assert sends[|old(sends)|..] == sent[|old(sends)|..] + sends[|sent|..];
      if ending.Finished? {
        AccountsChain(old(record), between, record, recipients[..mid], recipients[mid..]);
        if FailsOnBad(answer, bad) {
          SeparatesChain(old(record), between, record, bad, recipients[..mid], recipients[mid..]);
        }
      }
    }
  }

  // ----- Lists that are never done -----

  lemma {:induction false} NonemptyFinishes(fails: seq<Email> -> bool, recipients: seq<Email>, fuel: nat)
    requires 0 < |recipients| <= fuel
    ensures Finishes(fails, recipients, fuel)
  {
    if |recipients| > 1 {
      NonemptyFinishes(fails, recipients[..|recipients| / 2], fuel - 1);
      NonemptyFinishes(fails, recipients[|recipients| / 2..], fuel - 1);
    }
  }

  lemma {:induction false} EmptyNeverFinishes(fails: seq<Email> -> bool, fuel: nat)
    requires fails([])
    ensures !Finishes(fails, [], fuel)
  {
    if fuel > 0 {
      EmptyNeverFinishes(fails, fuel - 1);
      var none: seq<Email> := [];
      assert none[..0] == [];
    }
  }

  /** Cutting the list ends, whatever fails, unless the list is empty and sending to nobody fails. */
  lemma FinishesUnlessEmptyFails(fails: seq<Email> -> bool, recipients: seq<Email>)
    ensures (exists fuel: nat :: Finishes(fails, recipients, fuel)) <==> recipients != [] || !fails([])
  {
    var enough := |recipients| + 1;
    if recipients != [] {
      NonemptyFinishes(fails, recipients, enough);
      assert exists fuel: nat :: Finishes(fails, recipients, fuel);
    } else if !fails(recipients) {
      assert recipients == [] && Finishes(fails, recipients, enough);
      assert exists fuel: nat :: Finishes(fails, recipients, fuel);
    } else {
      forall fuel: nat
        ensures !Finishes(fails, recipients, fuel)
      {
        EmptyNeverFinishes(fails, fuel);
      }
    }
  }
}
