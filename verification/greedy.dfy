/** The two-cursor merge of the settlement routine, written as a pure
    function over the remaining creditor and debtor lists: the head of each
    list is the entry under its cursor, and dropping a head is advancing
    that cursor. */
module Greedy {
  import opened Balances

  /** Python's min(a, b): the first argument unless the second is strictly smaller. */
  function Min(a: real, b: real): (m: real)
    ensures m <= a && m <= b
    ensures m == a || m == b
  {
    if b < a then b else a
  }

  /** Pay t off the entry under the cursor; once its remaining amount is
      exactly zero the cursor moves past it. */
  function Pay(es: seq<Entry>, t: real): seq<Entry>
    requires |es| > 0
  {
    if es[0].amount - t == 0.0 then es[1..]
    else [Entry(es[0].player, es[0].amount - t)] + es[1..]
  }

  /** The transfers the loop emits from the given remaining creditor (cs)
      and debtor (ds) lists: the current debtor pays the current creditor
      the smaller of the two remaining amounts, until one list runs out. */
  function Match(cs: seq<Entry>, ds: seq<Entry>): seq<Transfer>
    decreases |cs| + |ds|
  {
    if |cs| == 0 || |ds| == 0 then []
    else
      var t := Min(cs[0].amount, ds[0].amount);
      [Transfer(ds[0].player, cs[0].player, t)] + Match(Pay(cs, t), Pay(ds, t))
  }

  lemma PayPlayers(es: seq<Entry>, t: real)
    requires |es| > 0
    ensures Players(Pay(es, t)) == if es[0].amount - t == 0.0 then Players(es)[1..] else Players(es)
  {
  }

  lemma PayHolding(es: seq<Entry>, t: real, p: nat)
    requires |es| > 0
    ensures Holding(Pay(es, t), p) == Holding(es, p) - (if es[0].player == p then t else 0.0)
  {
  }

  lemma PayTotal(es: seq<Entry>, t: real)
    requires |es| > 0
    ensures Total(Pay(es, t)) == Total(es) - t
  {
  }

  lemma PayPositive(es: seq<Entry>, t: real)
    requires |es| > 0 && Positive(es) && t <= es[0].amount
    ensures Positive(Pay(es, t))
  {
  }

  lemma AscendingHead(ps: seq<nat>, x: nat)
    requires StrictlyAscending(ps) && x in ps
    ensures ps[0] <= x
  {
  }

  /** Every step settles at least one side, so the number of transfers is
      below the number of creditors plus debtors, and nothing is emitted when
      either side is empty. */
  lemma {:induction false} MatchLength(cs: seq<Entry>, ds: seq<Entry>)
    ensures |cs| == 0 || |ds| == 0 ==> Match(cs, ds) == []
    ensures |cs| > 0 && |ds| > 0 ==> 0 < |Match(cs, ds)| <= |cs| + |ds| - 1
    decreases |cs| + |ds|
  {
    if |cs| > 0 && |ds| > 0 {
      var t := Min(cs[0].amount, ds[0].amount);
      MatchLength(Pay(cs, t), Pay(ds, t));
    }
  }

  /** When every remaining amount is positive, no zero or negative transfer is emitted. */
  lemma {:induction false} MatchAmounts(cs: seq<Entry>, ds: seq<Entry>)
    requires Positive(cs) && Positive(ds)
    ensures forall k :: 0 <= k < |Match(cs, ds)| ==> Match(cs, ds)[k].amount > 0.0
    decreases |cs| + |ds|
  {
    if |cs| > 0 && |ds| > 0 {
      var t := Min(cs[0].amount, ds[0].amount);
      PayPositive(cs, t);
      PayPositive(ds, t);
      MatchAmounts(Pay(cs, t), Pay(ds, t));
    }
  }

  /** Payees are drawn from the creditor list and payers from the debtor list. */
  lemma {:induction false} MatchParties(cs: seq<Entry>, ds: seq<Entry>)
    ensures forall k :: 0 <= k < |Match(cs, ds)| ==>
      Match(cs, ds)[k].payee in Players(cs) && Match(cs, ds)[k].payer in Players(ds)
    decreases |cs| + |ds|
  {
    if |cs| > 0 && |ds| > 0 {
      var ts := Match(cs, ds);
      var t := Min(cs[0].amount, ds[0].amount);
      var cs', ds' := Pay(cs, t), Pay(ds, t);
      assert ts[1..] == Match(cs', ds');
      PayPlayers(cs, t);
      PayPlayers(ds, t);
      MatchParties(cs', ds');
      forall k | 0 <= k < |ts|
        ensures ts[k].payee in Players(cs) && ts[k].payer in Players(ds)
      {
        if k == 0 {
          assert Players(cs)[0] == ts[0].payee;
          assert Players(ds)[0] == ts[0].payer;
        } else {
          assert ts[k] == ts[1..][k - 1];
          assert ts[k].payee in Players(cs');
          assert ts[k].payer in Players(ds');
        }
      }
    }
  }

  /** Transfers in which payees and payers never decrease. */
  predicate Ordered(ts: seq<Transfer>)
  {
    forall k, l :: 0 <= k < l < |ts| ==> ts[k].payee <= ts[l].payee && ts[k].payer <= ts[l].payer
  }

  lemma OrderedPrepend(ts: seq<Transfer>)
    requires |ts| > 0 && Ordered(ts[1..])
    requires forall l :: 0 < l < |ts| ==> ts[0].payee <= ts[l].payee && ts[0].payer <= ts[l].payer
    ensures Ordered(ts)
  {
    forall k, l | 0 < k < l < |ts| ensures ts[k].payee <= ts[l].payee && ts[k].payer <= ts[l].payer {
      assert ts[k] == ts[1..][k - 1] && ts[l] == ts[1..][l - 1];
    }
  }

  lemma PayAscending(es: seq<Entry>, t: real)
    requires |es| > 0 && StrictlyAscending(Players(es))
    ensures StrictlyAscending(Players(Pay(es, t)))
  {
    PayPlayers(es, t);
  }

  /** The first transfer names the smallest payee and the smallest payer of the merge. */
  lemma MatchHeadFirst(cs: seq<Entry>, ds: seq<Entry>)
    requires |cs| > 0 && |ds| > 0
    requires StrictlyAscending(Players(cs)) && StrictlyAscending(Players(ds))
    ensures var ts := Match(cs, ds);
      forall l :: 0 < l < |ts| ==> ts[0].payee <= ts[l].payee && ts[0].payer <= ts[l].payer
  {
    var ts := Match(cs, ds);
    var t := Min(cs[0].amount, ds[0].amount);
    var cs', ds' := Pay(cs, t), Pay(ds, t);
    assert ts[1..] == Match(cs', ds');
    PayPlayers(cs, t);
    PayPlayers(ds, t);
    MatchParties(cs', ds');
    forall l | 0 < l < |ts| ensures ts[0].payee <= ts[l].payee && ts[0].payer <= ts[l].payer {
      assert ts[l] == ts[1..][l - 1];
      AscendingHead(Players(cs), ts[l].payee);
      AscendingHead(Players(ds), ts[l].payer);
    }
  }

  /** With both lists in ascending player order, creditors are paid and
      debtors pay in ascending player order. */
  lemma {:induction false} MatchOrdered(cs: seq<Entry>, ds: seq<Entry>)
    requires StrictlyAscending(Players(cs)) && StrictlyAscending(Players(ds))
    ensures Ordered(Match(cs, ds))
    decreases |cs| + |ds|
  {
    if |cs| > 0 && |ds| > 0 {
      var ts := Match(cs, ds);
      var t := Min(cs[0].amount, ds[0].amount);
      assert ts[1..] == Match(Pay(cs, t), Pay(ds, t));
      PayAscending(cs, t);
      PayAscending(ds, t);
      MatchOrdered(Pay(cs, t), Pay(ds, t));
      MatchHeadFirst(cs, ds);
      OrderedPrepend(ts);
    }
  }

  /** After transfer k, either its payee is never paid again or its payer never pays again. */
  predicate ClosesAParty(ts: seq<Transfer>, k: nat)
    requires k < |ts|
  {
    || (forall l :: k < l < |ts| ==> ts[l].payee != ts[k].payee)
    || (forall l :: k < l < |ts| ==> ts[l].payer != ts[k].payer)
  }

  lemma ClosesAPartyShift(ts: seq<Transfer>, k: nat)
    requires 0 < k < |ts| && ClosesAParty(ts[1..], k - 1)
    ensures ClosesAParty(ts, k)
  {
    if forall l :: k - 1 < l < |ts[1..]| ==> ts[1..][l].payee != ts[1..][k - 1].payee {
      forall l | k < l < |ts| ensures ts[l].payee != ts[k].payee {
        assert ts[l] == ts[1..][l - 1];
      }
    } else {
      forall l | k < l < |ts| ensures ts[l].payer != ts[k].payer {
        assert ts[l] == ts[1..][l - 1];
      }
    }
  }

  lemma AscendingHeadUnique(ps: seq<nat>)
    requires |ps| > 0 && StrictlyAscending(ps)
    ensures ps[0] !in ps[1..]
  {
  }

  lemma MatchAvoids(cs: seq<Entry>, ds: seq<Entry>, x: nat)
    ensures x !in Players(cs) ==> forall k :: 0 <= k < |Match(cs, ds)| ==> Match(cs, ds)[k].payee != x
    ensures x !in Players(ds) ==> forall k :: 0 <= k < |Match(cs, ds)| ==> Match(cs, ds)[k].payer != x
  {
    MatchParties(cs, ds);
  }

  /** The first transfer closes out its party: the min zeroes the current
      creditor or the current debtor, and with ascending lists that player
      does not occur again in what remains. */
  lemma MatchHeadClosesAParty(cs: seq<Entry>, ds: seq<Entry>)
    requires |cs| > 0 && |ds| > 0
    requires StrictlyAscending(Players(cs)) && StrictlyAscending(Players(ds))
    ensures ClosesAParty(Match(cs, ds), 0)
  {
    var ts := Match(cs, ds);
    var t := Min(cs[0].amount, ds[0].amount);
    var cs', ds' := Pay(cs, t), Pay(ds, t);
    var rest := Match(cs', ds');
    assert ts[1..] == rest;
    assert ts[0].payee == Players(cs)[0] && ts[0].payer == Players(ds)[0];
    if cs[0].amount - t == 0.0 {
      PayPlayers(cs, t);
      AscendingHeadUnique(Players(cs));
      MatchAvoids(cs', ds', ts[0].payee);
      assert forall l :: 0 < l < |ts| ==> ts[l] == rest[l - 1];
    } else {
      assert ds[0].amount - t == 0.0;
      PayPlayers(ds, t);
      AscendingHeadUnique(Players(ds));
      MatchAvoids(cs', ds', ts[0].payer);
      assert forall l :: 0 < l < |ts| ==> ts[l] == rest[l - 1];
    }
  }

  /** Every transfer closes out its payee or its payer: the amount is the
      smaller of the two remaining balances, so one of them reaches zero and
      its cursor moves on for good. */
  lemma {:induction false} MatchClosesAParty(cs: seq<Entry>, ds: seq<Entry>)
    requires StrictlyAscending(Players(cs)) && StrictlyAscending(Players(ds))
    ensures forall k :: 0 <= k < |Match(cs, ds)| ==> ClosesAParty(Match(cs, ds), k)
    decreases |cs| + |ds|
  {
    if |cs| > 0 && |ds| > 0 {
      var ts := Match(cs, ds);
      var t := Min(cs[0].amount, ds[0].amount);
      var cs', ds' := Pay(cs, t), Pay(ds, t);
      assert ts[1..] == Match(cs', ds');
      PayPlayers(cs, t);
      PayPlayers(ds, t);
      MatchClosesAParty(cs', ds');
      MatchHeadClosesAParty(cs, ds);
      forall k | 0 < k < |ts| ensures ClosesAParty(ts, k) {
        ClosesAPartyShift(ts, k);
      }
    }
  }

  /** With positive remaining amounts the merge moves exactly the smaller of
      the two totals: it stops only once one side is fully paid. */
  lemma {:induction false} MatchVolume(cs: seq<Entry>, ds: seq<Entry>)
    requires Positive(cs) && Positive(ds)
    ensures Volume(Match(cs, ds)) == Min(Total(cs), Total(ds))
    decreases |cs| + |ds|
  {
    TotalOfPositiveIsPositive(cs);
    TotalOfPositiveIsPositive(ds);
    if |cs| > 0 && |ds| > 0 {
      var t := Min(cs[0].amount, ds[0].amount);
      PayPositive(cs, t);
      PayPositive(ds, t);
      PayTotal(cs, t);
      PayTotal(ds, t);
      MatchVolume(Pay(cs, t), Pay(ds, t));
    }
  }

  /** Conservation: when the remaining amounts are positive and total credit
      equals total debt, the merge leaves nothing unpaid — every player
      receives minus pays exactly what the lists recorded for them. */
  lemma {:induction false} MatchConserves(cs: seq<Entry>, ds: seq<Entry>, p: nat)
    requires Positive(cs) && Positive(ds)
    requires Total(cs) == Total(ds)
    ensures Flow(Match(cs, ds), p) == Holding(cs, p) - Holding(ds, p)
    decreases |cs| + |ds|
  {
    TotalOfPositiveIsPositive(cs);
    TotalOfPositiveIsPositive(ds);
    if |cs| > 0 && |ds| > 0 {
      var t := Min(cs[0].amount, ds[0].amount);
      PayPositive(cs, t);
      PayPositive(ds, t);
      PayTotal(cs, t);
      PayTotal(ds, t);
      PayHolding(cs, t, p);
      PayHolding(ds, t, p);
      MatchConserves(Pay(cs, t), Pay(ds, t), p);
    }
  }
}
