/**
  The row builder of core/TableExporter.py: one ten-cell row per bond record,
  and the table as the rows of a bond list in order.

  The source reads each bond from a dict with `.get`; here a bond is a record
  whose fields are all present (see README for the keys the catalog does not
  fill in). `today` is a parameter, and a date cell carries the day ordinal that
  `strftime("%d-%m-%Y")` would print.
 */
module TableExporter {
  import opened Wrappers
  import opened TermFormat
  import opened Profitability

  /** The bond dict the exporter reads. */
  datatype Bond = Bond(
    ticker: string,
    name: string,
    currency: string,
    placementDate: int,
    maturityDate: int,
    couponQuantityPerYear: int,
    realValue: real,
    nominalValue: real,
    aci: real,
    coupons: seq<Coupon>)

  /** One cell of an exported row. */
  datatype Cell =
    | Text(text: string)
    | Day(ordinal: int)      // a date, printed as day-month-year
    | Whole(count: int)
    | Amount(amount: real)

  type Row = seq<Cell>

  const RowWidth := 10
  const TickerColumn := 0
  const NameColumn := 1
  const CurrencyColumn := 2
  const PlacementColumn := 3
  const MaturityColumn := 4
  const TermColumn := 5
  const CouponsColumn := 6
  const PriceColumn := 7
  const NominalColumn := 8
  const ProfitColumn := 9

  /** A bond whose row can be built without dividing by zero. */
  predicate Exportable(bond: Bond, today: int, commission: real) {
    Computable(DateDt(today, bond.maturityDate), bond.realValue, bond.aci, bond.currency, commission)
  }

  /** The profitability figure of a bond's row. */
  function BondProfitability(bond: Bond, today: int, commission: real, annualise: (real, real) -> real): (r: real)
    requires Exportable(bond, today, commission)
    ensures bond.currency != "rub" ==> r == 0.0
  {
    AnnualProfitability(
      DateDt(today, bond.maturityDate), bond.coupons, bond.nominalValue, bond.realValue,
      bond.aci, bond.currency, today, commission, annualise)
  }

  /**
    For a rouble bond the row's figure is computed from the bond's coupons,
    nominal, price and accrued interest, over its term from today to maturity.
   */
  lemma RubBondProfitability(bond: Bond, today: int, commission: real, annualise: (real, real) -> real)
    requires bond.currency == "rub" && Exportable(bond, today, commission)
    ensures BondProfitability(bond, today, commission, annualise)
         == annualise(
              Ratio(Proceeds(bond.coupons, bond.nominalValue, bond.realValue, today),
                    Expenses(bond.realValue, bond.aci, commission)),
              AnnualExponent(DateDt(today, bond.maturityDate)))
  {
  }

  /** The ten cells of a bond's row, given its term text and profitability. */
  function RowCells(bond: Bond, termText: string, profit: real): (row: Row)
    ensures |row| == RowWidth
    ensures row[TickerColumn] == Text(bond.ticker) && row[NameColumn] == Text(bond.name)
    ensures row[CurrencyColumn] == Text(bond.currency)
    ensures row[PlacementColumn] == Day(bond.placementDate) && row[MaturityColumn] == Day(bond.maturityDate)
    ensures row[TermColumn] == Text(termText)
    ensures row[CouponsColumn] == Whole(bond.couponQuantityPerYear)
    ensures row[PriceColumn] == Amount(bond.realValue) && row[NominalColumn] == Amount(bond.nominalValue)
    ensures row[ProfitColumn] == Amount(profit)
  {
    [ Text(bond.ticker), Text(bond.name), Text(bond.currency),
      Day(bond.placementDate), Day(bond.maturityDate),
      Text(termText), Whole(bond.couponQuantityPerYear), Amount(bond.realValue),
      Amount(bond.nominalValue), Amount(profit) ]
  }

  /** The term string of a bond's row. */
  function TermText(bond: Bond, today: int): string {
    var dateDiff := DateDt(today, bond.maturityDate);
    PrepareDateDt(dateDiff.0, dateDiff.1)
  }

  /**
    `_get_row_list`: ticker, name, currency, placement and maturity dates, the
    term string, coupons per year, price, nominal and profitability, in that
    order.
   */
  function GetRowList(bond: Bond, today: int, commission: real, annualise: (real, real) -> real): (row: Row)
    requires Exportable(bond, today, commission)
    ensures |row| == RowWidth
    ensures row[TickerColumn] == Text(bond.ticker)
    ensures row[TermColumn] == Text(TermText(bond, today))
    ensures row[ProfitColumn] == Amount(BondProfitability(bond, today, commission, annualise))
    ensures bond.currency != "rub" ==> row[ProfitColumn] == Amount(0.0)
  {
    RowCells(bond, TermText(bond, today), BondProfitability(bond, today, commission, annualise))
  }

  /** The term column of a row reads back as the bond's term to maturity. */
  lemma RowTermReadsBack(bond: Bond, today: int, commission: real, annualise: (real, real) -> real)
    requires Exportable(bond, today, commission)
    ensures var row := GetRowList(bond, today, commission, annualise);
            row[TermColumn].Text? && ParseTerm(row[TermColumn].text) == Some(DateDt(today, bond.maturityDate))
  {
    var t := DateDt(today, bond.maturityDate);
    PrepareDateDtRoundTrip(t.0, t.1);
    assert TermText(bond, today) == PrepareDateDt(t.0, t.1);
  }

  predicate AllExportable(bonds: seq<Bond>, today: int, commission: real) {
    forall i :: 0 <= i < |bonds| ==> Exportable(bonds[i], today, commission)
  }

  /** `get_table`: the rows of the bonds, one per bond, in the bonds' order. */
  function GetTable(bonds: seq<Bond>, today: int, commission: real, annualise: (real, real) -> real): (table: seq<Row>)
    requires AllExportable(bonds, today, commission)
    ensures |table| == |bonds|
    ensures forall i :: 0 <= i < |bonds| ==> table[i] == GetRowList(bonds[i], today, commission, annualise)
    ensures forall i :: 0 <= i < |bonds| ==> |table[i]| == RowWidth && table[i][0] == Text(bonds[i].ticker)
  {
    seq(|bonds|, i requires 0 <= i < |bonds| => GetRowList(bonds[i], today, commission, annualise))
  }

  /** Exporting two lists one after the other gives the table of the joined list. */
  lemma GetTableAppend(a: seq<Bond>, b: seq<Bond>, today: int, commission: real, annualise: (real, real) -> real)
    requires AllExportable(a, today, commission) && AllExportable(b, today, commission)
    ensures AllExportable(a + b, today, commission)
    ensures GetTable(a + b, today, commission, annualise)
         == GetTable(a, today, commission, annualise) + GetTable(b, today, commission, annualise)
  {
    assert forall i :: 0 <= i < |a + b| ==> (a + b)[i] == if i < |a| then a[i] else b[i - |a|];
  }

  /**
    A bond that has not matured yet is exportable as soon as its price, accrued
    interest and commission are non-negative and the price is positive.
   */
  lemma UnmaturedBondIsExportable(bond: Bond, today: int, commission: real)
    requires today <= bond.maturityDate
    requires bond.realValue > 0.0 && bond.aci >= 0.0 && commission >= 0.0
    ensures Exportable(bond, today, commission)
  {
  }

  /** Bonds in any other currency than "rub" always show a profitability of 0. */
  lemma ForeignBondsShowZero(bonds: seq<Bond>, today: int, commission: real, annualise: (real, real) -> real)
    requires AllExportable(bonds, today, commission)
    ensures forall i :: 0 <= i < |bonds| && bonds[i].currency != "rub" ==>
      GetTable(bonds, today, commission, annualise)[i][ProfitColumn] == Amount(0.0)
  {
  }
}
