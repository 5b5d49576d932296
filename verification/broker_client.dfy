/**
  `TinkoffClient` of core/BrokerClient.py: a token and a two-list bond storage,
  and the catalog pass that appends the federal loan bonds (OFZ) to `ru_flb`.

  The gRPC session that fetches the catalog is not modelled: the catalog arrives
  as a parameter, `None` standing for a provider answer of `None`. The client
  is an immutable value; each operation returns the client after the call.
 */
module BrokerClient {
  import opened Wrappers
  import opened Sequences

  /** The provider's fixed-point amount: whole units plus nano-units. */
  datatype MoneyValue = MoneyValue(currency: string, units: int, nano: int)

  /** A provider timestamp; `.date()` keeps only the day. */
  datatype Timestamp = Timestamp(day: int, secondOfDay: int)

  /** The fields of a catalog bond descriptor that the catalog pass reads. */
  datatype BondDescriptor = BondDescriptor(
    ticker: string,
    name: string,
    aciValue: MoneyValue,
    currency: string,
    sector: string,
    placementDate: Timestamp,
    maturityDate: Timestamp,
    nominal: MoneyValue,
    couponQuantityPerYear: int,
    forQualInvestorFlag: bool)

  /**
    The dict appended to `ru_flb`: exactly these eight keys. There is no
    `real_value` and no `coupons` key, and the nominal is reduced to its whole units.
   */
  datatype StoredBond = StoredBond(
    ticker: string,
    name: string,
    aci: MoneyValue,
    currency: string,
    placementDate: int,
    maturityDate: int,
    nominalValue: int,
    couponQuantityPerYear: int)

  /** `_bonds_storage`: the "ru_flb" and "ru_corp" lists. */
  datatype Storage = Storage(ruFlb: seq<StoredBond>, ruCorp: seq<StoredBond>)

  datatype TinkoffClient = TinkoffClient(token: string, storage: Storage)

  /** `__init__`: both lists start empty. */
  function NewClient(token: string): (c: TinkoffClient)
    ensures Token(c) == token
    ensures GetBonds(c).ruFlb == [] && GetBonds(c).ruCorp == []
  {
    TinkoffClient(token, Storage([], []))
  }

  /** `set_token`: replaces the token, leaves the storage alone. */
  function SetToken(c: TinkoffClient, token: string): (c': TinkoffClient)
    ensures Token(c') == token
    ensures GetBonds(c') == GetBonds(c)
  {
    c.(token := token)
  }

  /** The `token` property. */
  function Token(c: TinkoffClient): string {
    c.token
  }

  /** `get_bonds`: the storage itself. */
  function GetBonds(c: TinkoffClient): Storage {
    c.storage
  }

  /** The three nested conditions of the catalog loop. */
  predicate IsFederalLoanBond(d: BondDescriptor) {
    !d.forQualInvestorFlag && d.currency == "rub" && d.sector == "government"
  }

  /** The dict built for one selected descriptor. */
  function ToStoredBond(d: BondDescriptor): (b: StoredBond)
    ensures b.ticker == d.ticker && b.name == d.name && b.currency == d.currency
    ensures b.aci == d.aciValue
    ensures b.placementDate == d.placementDate.day && b.maturityDate == d.maturityDate.day
    ensures b.nominalValue == d.nominal.units
    ensures b.couponQuantityPerYear == d.couponQuantityPerYear
  {
    StoredBond(
      d.ticker, d.name, d.aciValue, d.currency,
      d.placementDate.day, d.maturityDate.day,
      d.nominal.units, d.couponQuantityPerYear)
  }

  /**
    The records one catalog pass appends: the federal loan bonds of the catalog,
    converted, in catalog order.
   */
  function FlbEntries(catalog: seq<BondDescriptor>): (entries: seq<StoredBond>)
    ensures |entries| <= |catalog|
    ensures forall d :: d in catalog && IsFederalLoanBond(d) ==> ToStoredBond(d) in entries
  {
    if catalog == [] then []
    else
      (if IsFederalLoanBond(catalog[0]) then [ToStoredBond(catalog[0])] else [])
      + FlbEntries(catalog[1..])
  }

  /**
    `update_bonds_storage`, given what `client.instruments.bonds()` answered.
    The loop appends to the existing `ru_flb` list: earlier entries stay, the
    new ones follow in catalog order, and `ru_corp` and the token are untouched.
   */
  method UpdateBondsStorage(c: TinkoffClient, bonds: Option<seq<BondDescriptor>>) returns (c': TinkoffClient)
    ensures Token(c') == Token(c)
    ensures GetBonds(c').ruCorp == GetBonds(c).ruCorp
    ensures bonds.None? ==> c' == c
    ensures bonds.Some? ==> GetBonds(c').ruFlb == GetBonds(c).ruFlb + FlbEntries(bonds.value)
  {
    c' := c;
    if bonds.Some? {
      var instruments := bonds.value;
      var flbStorage := c.storage.ruFlb;
      var i := 0;
      assert instruments[..0] == [];
      while i < |instruments|
        invariant 0 <= i <= |instruments|
        invariant flbStorage == c.storage.ruFlb + FlbEntries(instruments[..i])
      {
        var bond := instruments[i];
        ghost var selected := if IsFederalLoanBond(bond) then [ToStoredBond(bond)] else [];
        ghost var before := flbStorage;
        if !bond.forQualInvestorFlag {
          if bond.currency == "rub" {
            if bond.sector == "government" {
              flbStorage := flbStorage + [ToStoredBond(bond)];
            }
          }
        }
        assert flbStorage == before + selected;
        FlbEntriesExtend(instruments, i);
        AppendAssociative(c.storage.ruFlb, FlbEntries(instruments[..i]), selected);
        i := i + 1;
      }
      assert instruments[..i] == instruments;
      c' := c.(storage := c.storage.(ruFlb := flbStorage));
    }
  }

  // ---------------------------------------------------------------------
  // Properties of the model.

  /** One pass over a joined catalog appends what two passes over its halves append. */
  lemma {:induction false} FlbEntriesAppend(a: seq<BondDescriptor>, b: seq<BondDescriptor>)
    ensures FlbEntries(a + b) == FlbEntries(a) + FlbEntries(b)
  {
    if a == [] {
      assert a + b == b;
    } else {
      assert (a + b)[0] == a[0];
      assert (a + b)[1..] == a[1..] + b;
      FlbEntriesAppend(a[1..], b);
      var head := if IsFederalLoanBond(a[0]) then [ToStoredBond(a[0])] else [];
      AppendAssociative(head, FlbEntries(a[1..]), FlbEntries(b));
    }
  }

  /** One more step of the catalog loop. */
  lemma FlbEntriesExtend(catalog: seq<BondDescriptor>, i: int)
    requires 0 <= i < |catalog|
    ensures FlbEntries(catalog[..i + 1])
         == FlbEntries(catalog[..i]) + (if IsFederalLoanBond(catalog[i]) then [ToStoredBond(catalog[i])] else [])
  {
    var bond := catalog[i];
    assert catalog[..i + 1] == catalog[..i] + [bond];
    FlbEntriesAppend(catalog[..i], [bond]);
    assert [bond][1..] == [];
  }

  /**
    Reference for the selection: the positions, from `start` on, of the federal
    loan bonds in the catalog, strictly increasing, missing none.
   */
  function FederalIndices(catalog: seq<BondDescriptor>, start: nat): (idx: seq<int>)
    requires start <= |catalog|
    ensures forall k :: 0 <= k < |idx| ==> start <= idx[k] < |catalog| && IsFederalLoanBond(catalog[idx[k]])
    ensures forall k, l :: 0 <= k < l < |idx| ==> idx[k] < idx[l]
    ensures forall i :: start <= i < |catalog| && IsFederalLoanBond(catalog[i]) ==> i in idx
    decreases |catalog| - start
  {
    if start == |catalog| then []
    else (if IsFederalLoanBond(catalog[start]) then [start] else []) + FederalIndices(catalog, start + 1)
  }

  /**
    The appended entries are, position by position, the converted catalog
    bonds at the federal indices: exactly the selected bonds, in catalog order.
   */
  lemma {:induction false} FlbEntriesFollowCatalog(catalog: seq<BondDescriptor>, start: nat)
    requires start <= |catalog|
    ensures |FlbEntries(catalog[start..])| == |FederalIndices(catalog, start)|
    ensures forall k :: 0 <= k < |FederalIndices(catalog, start)| ==>
      FlbEntries(catalog[start..])[k] == ToStoredBond(catalog[FederalIndices(catalog, start)[k]])
    decreases |catalog| - start
  {
    if start < |catalog| {
      var tail := catalog[start..];
      assert tail[0] == catalog[start];
      assert tail[1..] == catalog[start + 1..];
      FlbEntriesFollowCatalog(catalog, start + 1);
      var entries := FlbEntries(tail);
      var restEntries := FlbEntries(catalog[start + 1..]);
      var idx := FederalIndices(catalog, start);
      var restIdx := FederalIndices(catalog, start + 1);
      if IsFederalLoanBond(catalog[start]) {
        assert entries == [ToStoredBond(catalog[start])] + restEntries;
        assert idx == [start] + restIdx;
        forall k | 0 <= k < |idx|
          ensures entries[k] == ToStoredBond(catalog[idx[k]])
        {
          if k > 0 {
            assert entries[k] == restEntries[k - 1];
            assert idx[k] == restIdx[k - 1];
          }
        }
      } else {
        assert entries == restEntries;
        assert idx == restIdx;
      }
    }
  }

  /**
    Every pass grows `ru_flb`: two passes over the same catalog append its
    federal loan bonds twice, and nothing is ever replaced.
   */
  method UpdateTwice(c: TinkoffClient, catalog: seq<BondDescriptor>) returns (c'': TinkoffClient)
    ensures GetBonds(c'').ruFlb == GetBonds(c).ruFlb + FlbEntries(catalog) + FlbEntries(catalog)
    ensures GetBonds(c'').ruCorp == GetBonds(c).ruCorp
  {
    var c' := UpdateBondsStorage(c, Some(catalog));
    c'' := UpdateBondsStorage(c', Some(catalog));
  }
}
