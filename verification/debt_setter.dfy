/** calculate_poker_transactions: from each player's starting and ending
    blinds, the list of (payer, payee, amount) transfers that settles the
    table. */
module DebtSetter {
  import opened Balances
  import opened Greedy

  /** The two assertions the routine makes before it computes anything. */
  datatype SettleError =
    | LengthMismatch   // "The number of players must be the same"
    | ImbalancedTotal  // "The total number of blinds must be the same"

  /** Either the transfers, or the assertion that failed (no partial result). */
  datatype Settlement = Settled(transfers: seq<Transfer>) | Rejected(error: SettleError)

  /** The routine as a value: check the preconditions, compute the nets,
      split them into creditors and debtors, run the greedy merge. */
  function Settle(startBlinds: seq<real>, endBlinds: seq<real>): (r: Settlement)
    ensures r == Rejected(LengthMismatch) <==> |startBlinds| != |endBlinds|
    ensures r == Rejected(ImbalancedTotal) <==> |startBlinds| == |endBlinds| && Sum(startBlinds) != Sum(endBlinds)
    ensures r.Settled? <==> |startBlinds| == |endBlinds| && Sum(startBlinds) == Sum(endBlinds)
  {
    if |startBlinds| != |endBlinds| then Rejected(LengthMismatch)
    else if Sum(startBlinds) != Sum(endBlinds) then Rejected(ImbalancedTotal)
    else
      var net := NetBalances(startBlinds, endBlinds);
      Settled(Match(Creditors(net), Debtors(net)))
  }

  /** The routine as written: two cursors walk the creditor and debtor lists,
      which are updated in place as amounts are paid off. */
  method CalculatePokerTransactions(startBlinds: seq<real>, endBlinds: seq<real>) returns (r: Settlement)
    ensures r == Settle(startBlinds, endBlinds)
  {
    if |startBlinds| != |endBlinds| {
      return Rejected(LengthMismatch);
    }
    if Sum(startBlinds) != Sum(endBlinds) {
      return Rejected(ImbalancedTotal);
    }
    var net := NetBalances(startBlinds, endBlinds);
    var transactions := MergeCursors(Creditors(net), Debtors(net));
    return Settled(transactions);
  }

  /** The while loop of the routine: a cursor on each list; each step pays
      the smaller remaining amount from the current debtor to the current
      creditor, writes the reduced amounts back, and advances every cursor
      whose entry reached exactly zero. */
  method MergeCursors(creditors: seq<Entry>, debtors: seq<Entry>) returns (transactions: seq<Transfer>)
    ensures transactions == Match(creditors, debtors)
  {
    var remainingCredit, remainingDebt := creditors, debtors;
    transactions := [];
    var i, j := 0, 0;
    assert remainingCredit[i..] == creditors && remainingDebt[j..] == debtors;
    while i < |remainingCredit| && j < |remainingDebt|
      invariant 0 <= i <= |remainingCredit| && 0 <= j <= |remainingDebt|
      invariant transactions + Match(remainingCredit[i..], remainingDebt[j..]) == Match(creditors, debtors)
      decreases |remainingCredit| - i + |remainingDebt| - j
    {
      var creditor, debtor := remainingCredit[i], remainingDebt[j];
      var amount := Min(creditor.amount, debtor.amount);
      MergeStep(transactions, remainingCredit[i..], remainingDebt[j..], Match(creditors, debtors));
      transactions := transactions + [Transfer(debtor.player, creditor.player, amount)];
      remainingCredit, i := PayUnderCursor(remainingCredit, i, amount);
      remainingDebt, j := PayUnderCursor(remainingDebt, j, amount);
    }
  }

  /** Write the reduced amount back under the cursor and advance the cursor
      if that amount is now exactly zero. From the cursor on, what is left is
      the old suffix with its head paid down (or dropped). */
  method PayUnderCursor(es: seq<Entry>, i: nat, amount: real) returns (es': seq<Entry>, i': nat)
    requires i < |es|
    ensures |es'| == |es| && i' <= |es'|
    ensures i' == if es[i].amount - amount == 0.0 then i + 1 else i
    ensures es'[i'..] == Pay(es[i..], amount)
  {
    es' := es[i := Entry(es[i].player, es[i].amount - amount)];
    i' := i;
    if es'[i].amount == 0.0 {
      i' := i + 1;
    }
    assert es'[i + 1..] == es[i..][1..];
    assert es'[i..] == [es'[i]] + es'[i + 1..];
  }

  /** One loop step emits the head of the remaining merge and leaves the
      merge of the paid-down lists still to come. */
  lemma MergeStep(done: seq<Transfer>, cs: seq<Entry>, ds: seq<Entry>, all: seq<Transfer>)
    requires |cs| > 0 && |ds| > 0 && done + Match(cs, ds) == all
    ensures var t := Min(cs[0].amount, ds[0].amount);
      (done + [Transfer(ds[0].player, cs[0].player, t)]) + Match(Pay(cs, t), Pay(ds, t)) == all
  {
    var t := Min(cs[0].amount, ds[0].amount);
    var rest := Match(Pay(cs, t), Pay(ds, t));
    assert Match(cs, ds) == [Transfer(ds[0].player, cs[0].player, t)] + rest;
    assert (done + [Transfer(ds[0].player, cs[0].player, t)]) + rest == done + ([Transfer(ds[0].player, cs[0].player, t)] + rest);
  }

  /** Conservation: every player receives minus pays exactly end - start;
      indices outside the table are never touched. */
  lemma SettleConserves(startBlinds: seq<real>, endBlinds: seq<real>, p: nat)
    requires Settle(startBlinds, endBlinds).Settled?
    ensures Flow(Settle(startBlinds, endBlinds).transfers, p)
      == if p < |startBlinds| then endBlinds[p] - startBlinds[p] else 0.0
  {
    var net := NetBalances(startBlinds, endBlinds);
    SettledMerge(startBlinds, endBlinds);
    MergeConserves(net, p);
  }

  /** A settled table runs the merge on the creditor and debtor lists of
      nets that sum to zero. */
  lemma SettledMerge(startBlinds: seq<real>, endBlinds: seq<real>)
    requires Settle(startBlinds, endBlinds).Settled?
    ensures |startBlinds| == |endBlinds|
    ensures var net := NetBalances(startBlinds, endBlinds);
      && Sum(net) == 0.0
      && Settle(startBlinds, endBlinds).transfers == Match(Creditors(net), Debtors(net))
  {
    NetBalancesSum(startBlinds, endBlinds);
  }

  /** On nets that sum to zero the merge gives every player exactly their net. */
  lemma MergeConserves(net: seq<real>, p: nat)
    requires Sum(net) == 0.0
    ensures Flow(Match(Creditors(net), Debtors(net)), p) == if p < |net| then net[p] else 0.0
  {
    NetTotals(net);
    MatchConserves(Creditors(net), Debtors(net), p);
    NetHolding(net, p);
  }

  /** No residual: the transfers move exactly the total credit, which equals
      the total debt, so both cursors run off the end of their lists. */
  lemma SettlePaysEverything(startBlinds: seq<real>, endBlinds: seq<real>)
    requires Settle(startBlinds, endBlinds).Settled?
    ensures var net := NetBalances(startBlinds, endBlinds);
      && Total(Creditors(net)) == Total(Debtors(net))
      && Volume(Settle(startBlinds, endBlinds).transfers) == Total(Creditors(net))
  {
    var net := NetBalances(startBlinds, endBlinds);
    SettledMerge(startBlinds, endBlinds);
    NetTotals(net);
    MatchVolume(Creditors(net), Debtors(net));
  }

  /** Every transfer moves a positive amount from a player who lost blinds
      to a different player who won blinds. */
  lemma SettleTransfersWellFormed(startBlinds: seq<real>, endBlinds: seq<real>)
    requires Settle(startBlinds, endBlinds).Settled?
    ensures var ts := Settle(startBlinds, endBlinds).transfers;
      forall k :: 0 <= k < |ts| ==>
        && ts[k].amount > 0.0
        && ts[k].payer < |startBlinds| && endBlinds[ts[k].payer] < startBlinds[ts[k].payer]
        && ts[k].payee < |startBlinds| && endBlinds[ts[k].payee] > startBlinds[ts[k].payee]
        && ts[k].payer != ts[k].payee
  {
    var net := NetBalances(startBlinds, endBlinds);
    MatchAmounts(Creditors(net), Debtors(net));
    MatchParties(Creditors(net), Debtors(net));
  }

  /** A player who ends where they started is neither payer nor payee. */
  lemma SettleSkipsEvenPlayers(startBlinds: seq<real>, endBlinds: seq<real>, p: nat)
    requires Settle(startBlinds, endBlinds).Settled?
    requires p < |startBlinds| && startBlinds[p] == endBlinds[p]
    ensures var ts := Settle(startBlinds, endBlinds).transfers;
      forall k :: 0 <= k < |ts| ==> ts[k].payer != p && ts[k].payee != p
  {
    SettleTransfersWellFormed(startBlinds, endBlinds);
  }

  /** No transfers are produced exactly when every player ends where they started. */
  lemma SettleEmptyIffAllEven(startBlinds: seq<real>, endBlinds: seq<real>)
    requires Settle(startBlinds, endBlinds).Settled?
    ensures Settle(startBlinds, endBlinds).transfers == []
      <==> forall i :: 0 <= i < |startBlinds| ==> startBlinds[i] == endBlinds[i]
  {
    var net := NetBalances(startBlinds, endBlinds);
    SettledMerge(startBlinds, endBlinds);
    MergeEmptyIffAllZero(net);
    assert forall i :: 0 <= i < |startBlinds| ==> (net[i] == 0.0 <==> startBlinds[i] == endBlinds[i]);
  }

  /** On nets that sum to zero the merge emits nothing exactly when every net is zero. */
  lemma MergeEmptyIffAllZero(net: seq<real>)
    requires Sum(net) == 0.0
    ensures Match(Creditors(net), Debtors(net)) == [] <==> forall i :: 0 <= i < |net| ==> net[i] == 0.0
  {
    var cs, ds := Creditors(net), Debtors(net);
    NetTotals(net);
    TotalOfPositiveIsPositive(cs);
    TotalOfPositiveIsPositive(ds);
    MatchLength(cs, ds);
    if !forall i :: 0 <= i < |net| ==> net[i] == 0.0 {
      var i :| 0 <= i < |net| && net[i] != 0.0;
      assert i in Players(cs) || i in Players(ds);
    }
  }

  /** The greedy bound: fewer transfers than creditors plus debtors, hence
      fewer transfers than players. */
  lemma SettleCount(startBlinds: seq<real>, endBlinds: seq<real>)
    requires Settle(startBlinds, endBlinds).Settled?
    ensures var ts := Settle(startBlinds, endBlinds).transfers;
      var net := NetBalances(startBlinds, endBlinds);
      && (ts == [] || |ts| <= |Creditors(net)| + |Debtors(net)| - 1)
      && (ts == [] || |ts| < |startBlinds|)
  {
    var net := NetBalances(startBlinds, endBlinds);
    MatchLength(Creditors(net), Debtors(net));
    PartitionSize(net);
  }

  /** Creditors are paid, and debtors pay, in ascending player order. */
  lemma SettleOrdered(startBlinds: seq<real>, endBlinds: seq<real>)
    requires Settle(startBlinds, endBlinds).Settled?
    ensures var ts := Settle(startBlinds, endBlinds).transfers;
      forall k, l :: 0 <= k < l < |ts| ==> ts[k].payee <= ts[l].payee && ts[k].payer <= ts[l].payer
  {
    var net := NetBalances(startBlinds, endBlinds);
    MatchOrdered(Creditors(net), Debtors(net));
  }

  /** After each transfer its payee is never paid again or its payer never pays again. */
  lemma SettleClosesAParty(startBlinds: seq<real>, endBlinds: seq<real>)
    requires Settle(startBlinds, endBlinds).Settled?
    ensures var ts := Settle(startBlinds, endBlinds).transfers;
      forall k :: 0 <= k < |ts| ==> ClosesAParty(ts, k)
  {
    var net := NetBalances(startBlinds, endBlinds);
    MatchClosesAParty(Creditors(net), Debtors(net));
  }
}
