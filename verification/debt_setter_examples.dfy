/** The routine on small tables. */
module DebtSetterExamples {
  import opened Balances
  import opened Greedy
  import opened DebtSetter

  lemma RejectionExamples()
    ensures Settle([10.0, 20.0], [15.0, 14.0]) == Rejected(ImbalancedTotal)
    ensures Settle([10.0, 20.0, 30.0], [15.0, 45.0]) == Rejected(LengthMismatch)
  {
  }

  lemma EvenTableExample()
    ensures Settle([100.0, 100.0], [100.0, 100.0]) == Settled([])
  {
  }

  lemma TwoPlayerExample()
    ensures Settle([100.0, 200.0], [150.0, 150.0]) == Settled([Transfer(1, 0, 50.0)])
  {
  }

  lemma ThreePlayerExample()
    ensures Settle([100.0, 150.0, 200.0], [90.0, 160.0, 200.0]) == Settled([Transfer(0, 1, 10.0)])
  {
    ThreePlayerNets();
    ThreePlayerSplit();
    assert Match([Entry(1, 10.0)], [Entry(0, 10.0)]) == [Transfer(0, 1, 10.0)] + Match([], []);
  }

  /** The table's totals and nets, as a stepping stone for the example above. */
  lemma ThreePlayerNets()
    ensures Sum([100.0, 150.0, 200.0]) == Sum([90.0, 160.0, 200.0])
    ensures NetBalances([100.0, 150.0, 200.0], [90.0, 160.0, 200.0]) == [-10.0, 10.0, 0.0]
  {
  }

  /** The creditor and debtor lists of the example's nets. */
  lemma ThreePlayerSplit()
    ensures Creditors([-10.0, 10.0, 0.0]) == [Entry(1, 10.0)]
    ensures Debtors([-10.0, 10.0, 0.0]) == [Entry(0, 10.0)]
  {
    var net := [-10.0, 10.0, 0.0];
    assert Entries(net[..1]) == [];
    assert Entries(net[..2]) == [Entry(1, 10.0)];
    var neg := Negated(net);
    assert neg == [10.0, -10.0, -0.0];
    assert Entries(neg[..1]) == [Entry(0, 10.0)];
    assert Entries(neg[..2]) == [Entry(0, 10.0)];
  }

  lemma FractionalExample()
    ensures Settle([99.5, 200.5], [150.0, 150.0]) == Settled([Transfer(1, 0, 50.5)])
  {
  }
}
