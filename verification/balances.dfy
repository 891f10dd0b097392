/** Per-player balances of a poker session: the net each player won or lost,
    the split of the table into creditors and debtors, and the bookkeeping
    sums (what a group of entries holds, what a list of transfers moves). */
module Balances {

  /** One row of the creditor or debtor list: a player index and the
      quantity (in blinds) still owed to, or by, that player. */
  datatype Entry = Entry(player: nat, amount: real)

  /** "payer must pay amount to payee" — the source's
      (debtor_index, creditor_index, amount) tuple. */
  datatype Transfer = Transfer(payer: nat, payee: nat, amount: real)

  function Sum(xs: seq<real>): real
  {
    if |xs| == 0 then 0.0 else Sum(xs[..|xs| - 1]) + xs[|xs| - 1]
  }

  /** end - start for every player, in player order. */
  function NetBalances(startBlinds: seq<real>, endBlinds: seq<real>): (net: seq<real>)
    requires |startBlinds| == |endBlinds|
  {
    seq(|startBlinds|, i requires 0 <= i < |startBlinds| => endBlinds[i] - startBlinds[i])
  }

  function Negated(xs: seq<real>): seq<real>
  {
    seq(|xs|, i requires 0 <= i < |xs| => -xs[i])
  }

  function Players(es: seq<Entry>): seq<nat>
  {
    seq(|es|, k requires 0 <= k < |es| => es[k].player)
  }

  predicate StrictlyAscending(ps: seq<nat>)
  {
    forall k, l :: 0 <= k < l < |ps| ==> ps[k] < ps[l]
  }

  predicate Positive(es: seq<Entry>)
  {
    forall k :: 0 <= k < |es| ==> es[k].amount > 0.0
  }

  /** The entries (i, xs[i]) for every index with xs[i] > 0, in index order:
      the shape of both list comprehensions that build the creditor and
      debtor lists. */
  function Entries(xs: seq<real>): (es: seq<Entry>)
    ensures |es| <= |xs|
  {
    if |xs| == 0 then []
    else
      var last := |xs| - 1;
      Entries(xs[..last]) + (if xs[last] > 0.0 then [Entry(last, xs[last])] else [])
  }

  /** Entries keeps exactly the positive values, each at its own index, in
      strictly ascending index order. */
  lemma EntriesSpec(xs: seq<real>)
    ensures Positive(Entries(xs))
    ensures StrictlyAscending(Players(Entries(xs)))
    ensures forall k :: 0 <= k < |Entries(xs)| ==>
      Entries(xs)[k].player < |xs| && xs[Entries(xs)[k].player] == Entries(xs)[k].amount
    ensures forall i: nat :: i in Players(Entries(xs)) <==> i < |xs| && xs[i] > 0.0
  {
    EntriesValues(xs);
    EntriesPlayers(xs);
  }

  /** Every entry is a positive value of xs, recorded at its own index. */
  lemma {:induction false} EntriesValues(xs: seq<real>)
    ensures Positive(Entries(xs))
    ensures forall k :: 0 <= k < |Entries(xs)| ==>
      Entries(xs)[k].player < |xs| && xs[Entries(xs)[k].player] == Entries(xs)[k].amount
    decreases |xs|
  {
    if |xs| > 0 {
      var last := |xs| - 1;
      var rest := Entries(xs[..last]);
      EntriesValues(xs[..last]);
      assert forall k :: 0 <= k < |rest| ==> xs[rest[k].player] == xs[..last][rest[k].player];
      if xs[last] > 0.0 {
        assert Entries(xs) == rest + [Entry(last, xs[last])];
      } else {
        assert Entries(xs) == rest;
      }
    }
  }

  /** The players of Entries are exactly the indices of positive values, ascending. */
  lemma {:induction false} EntriesPlayers(xs: seq<real>)
    ensures StrictlyAscending(Players(Entries(xs)))
    ensures forall i: nat :: i in Players(Entries(xs)) <==> i < |xs| && xs[i] > 0.0
    decreases |xs|
  {
    if |xs| > 0 {
      var last := |xs| - 1;
      var rest := Entries(xs[..last]);
      EntriesPlayers(xs[..last]);
      EntriesValues(xs[..last]);
      if xs[last] > 0.0 {
        assert Entries(xs) == rest + [Entry(last, xs[last])];
        assert Players(Entries(xs)) == Players(rest) + [last];
      } else {
        assert Entries(xs) == rest;
      }
    }
  }

  /** Players with a positive net, paired with what they are owed. */
  function Creditors(net: seq<real>): (cs: seq<Entry>)
    ensures Positive(cs)
    ensures StrictlyAscending(Players(cs))
    ensures forall k :: 0 <= k < |cs| ==> cs[k].player < |net| && cs[k].amount == net[cs[k].player]
    ensures forall i: nat :: i in Players(cs) <==> i < |net| && net[i] > 0.0
  {
    EntriesSpec(net);
    Entries(net)
  }

  /** Players with a negative net, paired with what they owe (a positive number). */
  function Debtors(net: seq<real>): (ds: seq<Entry>)
    ensures Positive(ds)
    ensures StrictlyAscending(Players(ds))
    ensures forall k :: 0 <= k < |ds| ==> ds[k].player < |net| && ds[k].amount == -net[ds[k].player]
    ensures forall i: nat :: i in Players(ds) <==> i < |net| && net[i] < 0.0
  {
    EntriesSpec(Negated(net));
    assert forall i: nat :: i < |net| ==> (Negated(net)[i] > 0.0 <==> net[i] < 0.0);
    Entries(Negated(net))
  }

  /** Sum of all amounts in a list of entries. */
  function Total(es: seq<Entry>): real
  {
    if |es| == 0 then 0.0 else es[0].amount + Total(es[1..])
  }

  /** What the entries record for player p (summed, should p occur twice). */
  function Holding(es: seq<Entry>, p: nat): real
  {
    if |es| == 0 then 0.0
    else (if es[0].player == p then es[0].amount else 0.0) + Holding(es[1..], p)
  }

  /** What one transfer does to player p's position: + when p receives, - when p pays. */
  function Effect(t: Transfer, p: nat): real
  {
    (if t.payee == p then t.amount else 0.0) - (if t.payer == p then t.amount else 0.0)
  }

  /** Total received minus total paid by player p over a list of transfers. */
  function Flow(ts: seq<Transfer>, p: nat): real
  {
    if |ts| == 0 then 0.0 else Effect(ts[0], p) + Flow(ts[1..], p)
  }

  /** Total quantity moved by a list of transfers. */
  function Volume(ts: seq<Transfer>): real
  {
    if |ts| == 0 then 0.0 else ts[0].amount + Volume(ts[1..])
  }

  lemma {:induction false} TotalAppend(es: seq<Entry>, e: Entry)
    ensures Total(es + [e]) == Total(es) + e.amount
    decreases |es|
  {
    if |es| == 0 {
      assert es + [e] == [e];
    } else {
      assert (es + [e])[1..] == es[1..] + [e];
      TotalAppend(es[1..], e);
    }
  }

  lemma {:induction false} HoldingAppend(es: seq<Entry>, e: Entry, p: nat)
    ensures Holding(es + [e], p) == Holding(es, p) + (if e.player == p then e.amount else 0.0)
    decreases |es|
  {
    if |es| == 0 {
      assert es + [e] == [e];
    } else {
      assert (es + [e])[1..] == es[1..] + [e];
      HoldingAppend(es[1..], e, p);
    }
  }

  lemma {:induction false} TotalOfPositiveIsPositive(es: seq<Entry>)
    requires Positive(es)
    ensures |es| == 0 <==> Total(es) == 0.0
    ensures Total(es) >= 0.0
    decreases |es|
  {
    if |es| > 0 {
      TotalOfPositiveIsPositive(es[1..]);
    }
  }

  /** The nets add up to the change in the table total, so they sum to zero
      exactly when the start and end totals agree. */
  lemma {:induction false} NetBalancesSum(startBlinds: seq<real>, endBlinds: seq<real>)
    requires |startBlinds| == |endBlinds|
    ensures Sum(NetBalances(startBlinds, endBlinds)) == Sum(endBlinds) - Sum(startBlinds)
    decreases |startBlinds|
  {
    var n := |startBlinds|;
    if n > 0 {
      var s, e := startBlinds[..n - 1], endBlinds[..n - 1];
      assert NetBalances(startBlinds, endBlinds)[..n - 1] == NetBalances(s, e);
      NetBalancesSum(s, e);
    }
  }

  /** Entries records each positive value of xs at its own index and nothing else. */
  lemma {:induction false} EntriesHolding(xs: seq<real>, p: nat)
    ensures Holding(Entries(xs), p) == if p < |xs| && xs[p] > 0.0 then xs[p] else 0.0
    decreases |xs|
  {
    if |xs| > 0 {
      var last := |xs| - 1;
      var rest := Entries(xs[..last]);
      EntriesHolding(xs[..last], p);
      assert p < last ==> xs[..last][p] == xs[p];
      if xs[last] > 0.0 {
        assert Entries(xs) == rest + [Entry(last, xs[last])];
        HoldingAppend(rest, Entry(last, xs[last]), p);
      } else {
        assert Entries(xs) == rest;
      }
    }
  }

  /** What the creditor list holds for p minus what the debtor list holds for p
      is p's net: the partition loses no player's balance. */
  lemma NetHolding(net: seq<real>, p: nat)
    ensures Holding(Creditors(net), p) - Holding(Debtors(net), p) == if p < |net| then net[p] else 0.0
  {
    EntriesHolding(net, p);
    EntriesHolding(Negated(net), p);
  }

  /** Total credit minus total debt equals the sum of the nets. */
  lemma NetTotals(net: seq<real>)
    ensures Total(Creditors(net)) - Total(Debtors(net)) == Sum(net)
  {
    EntriesTotals(net);
  }

  lemma {:induction false} EntriesTotals(xs: seq<real>)
    ensures Total(Entries(xs)) - Total(Entries(Negated(xs))) == Sum(xs)
    decreases |xs|
  {
    var n := |xs|;
    if n > 0 {
      var init := xs[..n - 1];
      assert Negated(xs)[..n - 1] == Negated(init);
      EntriesTotals(init);
      EntriesTotalStep(xs);
      EntriesTotalStep(Negated(xs));
    }
  }

  lemma EntriesTotalStep(xs: seq<real>)
    requires |xs| > 0
    ensures Total(Entries(xs)) == Total(Entries(xs[..|xs| - 1])) + (if xs[|xs| - 1] > 0.0 then xs[|xs| - 1] else 0.0)
  {
    var last := |xs| - 1;
    var rest := Entries(xs[..last]);
    if xs[last] > 0.0 {
      var e := Entry(last, xs[last]);
      assert Entries(xs) == rest + [e];
      TotalAppend(rest, e);
      assert Total(Entries(xs)) == Total(rest) + xs[last];
    } else {
      assert Entries(xs) == rest + [];
      assert rest + [] == rest;
    }
  }

  /** No player is both a creditor and a debtor, so the two lists together
      never name more players than there are. */
  lemma {:induction false} PartitionSize(net: seq<real>)
    ensures |Creditors(net)| + |Debtors(net)| <= |net|
    decreases |net|
  {
    var n := |net|;
    if n > 0 {
      var init := net[..n - 1];
      assert Negated(net)[..n - 1] == Negated(init);
      PartitionSize(init);
    }
  }
}
