/** What the 64 KiB read budget of one call does, and when a call keeps to it. */
module ReadBudget {
  import opened Common
  import opened Codec
  import opened Transport

  /** Reading without any budget. */
  function ReceiveAll(max: nat, inbox: Drained, answers: seq<ReadReply>): Received
    decreases |answers|
  {
    if answers == [] then Received(inbox, [], false, Ok(()))
    else
      match answers[0]
      case Got(bytes) =>
        if bytes == [] then Received(inbox, [], true, Ok(()))
        else
          var pushed := PushOne(max, inbox, bytes);
          if !pushed.ok then Received(pushed, bytes, false, Err(Oversized))
          else
            var later := ReceiveAll(max, pushed, answers[1..]);
            later.(bytes := bytes + later.bytes)
      case ReadInterrupted => ReceiveAll(max, inbox, answers[1..])
      case ReadBlocked => Received(inbox, [], false, Ok(()))
      case ReadFails => Received(inbox, [], false, Err(ReadError))
  }

  function Size(answer: ReadReply): (n: nat)
    ensures n <= READ_CHUNK_BYTES
  {
    if answer.Got? then |answer.bytes| else 0
  }

  /** All bytes the answers offer. */
  function Total(answers: seq<ReadReply>): nat {
    if answers == [] then 0 else Size(answers[0]) + Total(answers[1..])
  }

  /** A budget is used up by exactly these totals; those past the first come from wrapping around. */
  predicate UsesUp(budget: u64, total: nat) {
    total % 0x1_0000_0000_0000_0000 == budget
  }

  lemma {:induction false} SpendUsesUp(budget: u64, n: nat, total: nat)
    requires n <= READ_CHUNK_BYTES
    ensures UsesUp(Spend(budget, n), total) <==> UsesUp(budget, n + total)
  {
  }

  /** The first point at which the budget is used up, or the end. */
  ghost predicate CutsAt(answers: seq<ReadReply>, budget: u64, k: nat) {
    && k <= |answers|
    && (forall j :: 0 <= j < k ==> !UsesUp(budget, Total(answers[..j])))
    && (k < |answers| ==> UsesUp(budget, Total(answers[..k])))
  }

  lemma {:induction false} TotalCons(answers: seq<ReadReply>, k: nat)
    requires 0 < k <= |answers|
    ensures Total(answers[..k]) == Size(answers[0]) + Total(answers[1..][..k - 1])
  {
    assert answers[..k][1..] == answers[1..][..k - 1];
  }

  lemma {:induction false} CutsLater(answers: seq<ReadReply>, budget: u64, k: nat)
    requires answers != [] && budget > 0 && CutsAt(answers[1..], Spend(budget, Size(answers[0])), k)
    ensures CutsAt(answers, budget, k + 1)
  {
    hide UsesUp, Total, Spend;
    var rest, left := answers[1..], Spend(budget, Size(answers[0]));
    forall j | 0 <= j <= k
      ensures UsesUp(left, Total(rest[..j])) <==> UsesUp(budget, Total(answers[..j + 1]))
    {
      TotalCons(answers, j + 1);
      SpendUsesUp(budget, Size(answers[0]), Total(rest[..j]));
    }
    NothingUsed(answers, budget);
    forall j | 0 <= j < k + 1
      ensures !UsesUp(budget, Total(answers[..j]))
    {
      if j > 0 {
        assert !UsesUp(left, Total(rest[..j - 1]));
      }
    }
  }

  lemma {:induction false} NothingUsed(answers: seq<ReadReply>, budget: u64)
    requires budget > 0
    ensures !UsesUp(budget, Total(answers[..0]))
  {
  }

  /**
   * The budget ends a call at the first answer after which the bytes offered come to exactly the budget,
   * and does nothing else: a call whose reads step over it goes on as if there were none.
   */
  lemma {:induction false} BudgetCuts(max: nat, inbox: Drained, answers: seq<ReadReply>, budget: u64) returns (k: nat)
    ensures CutsAt(answers, budget, k)
    ensures Receive(max, inbox, answers, budget) == ReceiveAll(max, inbox, answers[..k])
    decreases |answers|
  {
    if answers == [] || budget == 0 {
      k := 0;
      assert answers[..0] == [];
    } else {
      hide PushOne, CutsAt, Spend;
      var next := if answers[0].Got? then PushOne(max, inbox, answers[0].bytes) else inbox;
      var m := BudgetCuts(max, next, answers[1..], Spend(budget, Size(answers[0])));
      k := m + 1;
      CutsLater(answers, budget, m);
      assert answers[..k][1..] == answers[1..][..m] && answers[..k][0] == answers[0];
      assert answers[0].ReadInterrupted? ==> Spend(budget, 0) == budget by {
        NothingSpent(budget);
      }
    }
  }

  lemma {:induction false} NothingSpent(budget: u64)
    ensures Spend(budget, 0) == budget
  {
  }

  lemma {:induction false} ReadsAreOffered(max: nat, inbox: Drained, answers: seq<ReadReply>)
    ensures |ReceiveAll(max, inbox, answers).bytes| <= Total(answers)
    decreases |answers|
  {
    if answers != [] {
      ReadsAreOffered(max, if answers[0].Got? then PushOne(max, inbox, answers[0].bytes) else inbox, answers[1..]);
    }
  }

  lemma {:induction false} TotalPrefix(answers: seq<ReadReply>, k: nat)
    requires k <= |answers|
    ensures Total(answers[..k]) <= Total(answers)
  {
    if k > 0 {
      TotalCons(answers, k);
      TotalPrefix(answers[1..], k - 1);
    }
  }

  /**
   * A call that is offered fewer than 2^64 bytes reads at most 64 KiB exactly when some of its first
   * answers offer 64 KiB to the byte, or it would have read no more without a budget.
   */
  lemma {:induction false} KeepsToBudgetExactly(max: nat, inbox: Drained, answers: seq<ReadReply>)
    requires Total(answers) <= U64_MAX
    ensures |Receive(max, inbox, answers, DEFAULT_READ_BUDGET_BYTES).bytes| <= DEFAULT_READ_BUDGET_BYTES <==>
            || (exists k :: 0 <= k <= |answers| && Total(answers[..k]) == DEFAULT_READ_BUDGET_BYTES)
            || |ReceiveAll(max, inbox, answers).bytes| <= DEFAULT_READ_BUDGET_BYTES
  {
    hide Receive, ReceiveAll, Total;
    var k := BudgetCuts(max, inbox, answers, DEFAULT_READ_BUDGET_BYTES);
    forall j | 0 <= j <= |answers|
      ensures UsesUp(DEFAULT_READ_BUDGET_BYTES, Total(answers[..j])) <==>
              Total(answers[..j]) == DEFAULT_READ_BUDGET_BYTES
    {
      TotalPrefix(answers, j);
    }
    ReadsAreOffered(max, inbox, answers[..k]);
    assert answers[..|answers|] == answers;
    if j :| 0 <= j <= |answers| && Total(answers[..j]) == DEFAULT_READ_BUDGET_BYTES {
      assert k <= j;
    }
  }

  // ---- Reads that step over the budget ----

  /** One byte less than a chunk, without a NUL. */
  function Short(): (bytes: Chunk)
    ensures |bytes| == READ_CHUNK_BYTES - 1 && forall b :: b in bytes ==> b != 0
  {
    seq(READ_CHUNK_BYTES - 1, i => 1)
  }

  function ShortReads(n: nat): seq<ReadReply> {
    if n == 0 then [] else [Got(Short())] + ShortReads(n - 1)
  }

  lemma {:induction false} ShortTotals(n: nat, k: nat)
    requires k <= n
    ensures |ShortReads(n)| == n && Total(ShortReads(n)[..k]) == (READ_CHUNK_BYTES - 1) * k
  {
    if n > 0 {
      ShortTotals(n - 1, if k > 0 then k - 1 else 0);
      if k > 0 {
        assert ShortReads(n)[1..] == ShortReads(n - 1);
        TotalCons(ShortReads(n), k);
      }
    }
  }

  lemma {:induction false} ShortArrives(max: nat, inbox: Drained)
    requires NulFree(inbox.rest) && |inbox.rest| + READ_CHUNK_BYTES - 1 <= max
    ensures PushOne(max, inbox, Short()) == Drained(inbox.messages, inbox.rest + Short(), true)
    ensures NulFree(inbox.rest + Short())
  {
    var whole := inbox.rest + Short();
    assert NulFree(whole);
    assert Drain(max, whole) == Drained([], whole, true);
    assert inbox.messages + [] == inbox.messages;
  }

  lemma {:induction false} ShortReadsArrive(max: nat, inbox: Drained, n: nat)
    requires NulFree(inbox.rest) && |inbox.rest| + (READ_CHUNK_BYTES - 1) * n <= max
    ensures |ReceiveAll(max, inbox, ShortReads(n)).bytes| == (READ_CHUNK_BYTES - 1) * n
    decreases n
  {
    hide PushOne, NoNul, Short;
    if n > 0 {
      assert ShortReads(n)[1..] == ShortReads(n - 1);
      ShortArrives(max, inbox);
      ShortReadsArrive(max, PushOne(max, inbox, Short()), n - 1);
    }
  }

  /** Seventeen reads of one byte less than a chunk: 69615 bytes in one call. */
  lemma {:induction false} BudgetSteppedOver(max: nat)
    requires 69615 <= max
    ensures |Receive(max, Drained([], [], true), ShortReads(17), DEFAULT_READ_BUDGET_BYTES).bytes| == 69615
  {
    hide Receive, ReceiveAll, Total, ShortReads, Drain;
    var answers := ShortReads(17);
    ShortTotals(17, 17);
    var k := BudgetCuts(max, Drained([], [], true), answers, DEFAULT_READ_BUDGET_BYTES);
    ShortTotals(17, k);
    assert !UsesUp(DEFAULT_READ_BUDGET_BYTES, (READ_CHUNK_BYTES - 1) * k);
    assert answers[..17] == answers;
    ShortReadsArrive(max, Drained([], [], true), 17);
  }
}
