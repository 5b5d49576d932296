# BondsScreener core, modelled in Dafny

BondsScreener lists Russian government bonds (OFZ) from the Tinkoff Invest
catalog. It turns bond records into spreadsheet rows that show the time left to
maturity and an annual profitability figure. This project models the two pieces
of pure logic behind that:

- **The table-row builder** (`core/TableExporter.py`):
  - the day difference to maturity split into 365-day years and 30-day months,
    with a zero term floored to one month (`_date_dt`);
  - its Russian rendering with plural nouns (`_prepare_date_dt`);
  - the after-tax proceeds and the expenses of buying a bond now
    (`_count_annual_profitability`);
  - the ten-cell row for each bond (`_get_row_list`) and the table of rows
    (`get_table`).
- **The catalog pass of the broker client** (`core/BrokerClient.py`):
  - the client's token and its two-list bond storage (`ru_flb`, `ru_corp`);
  - `update_bonds_storage`, which appends one fixed-field record to `ru_flb`
    for every catalog bond that is not for qualified investors, is in `rub`
    and is in the `government` sector.

Modules, one concern each:

| file | module | models |
|---|---|---|
| wrappers.dfy | `Wrappers` | `Option`, for a provider answer of `None` and for parse failures |
| sequences.dfy | `Sequences` | associativity of concatenation, used by the proofs |
| decimal.dfy | `Decimal` | Python's `str(int)` and the parser that inverts it |
| term_format.dfy | `TermFormat` | `_date_dt`, `_prepare_date_dt`, and a parser for term strings |
| profitability.dfy | `Profitability` | `_count_annual_profitability` |
| table_exporter.dfy | `TableExporter` | `_get_row_list`, `get_table` |
| broker_client.dfy | `BrokerClient` | `TinkoffClient`: `__init__`, `set_token`, `token`, `get_bonds`, `update_bonds_storage` |

How the model maps the source:

- **Dates** are integer day ordinals.
- **Today** is a parameter, one day for the whole table. `datetime.date.today()` is not called.
- **Integer division.** Python's `//` and `%` by a positive divisor round
  towards minus infinity. Dafny's Euclidean `/` and `%` agree with them for a
  positive divisor, so `_date_dt` and the last-digit test of `_prepare_date_dt`
  are written as in the source. This includes negative values: a bond past
  maturity gets a negative year count.
- **Money** is `real`. The 0.87 coupon factor and the 0.13 gain-tax rate are
  exact here, where the source uses binary floating point.
  `cfg.COMMISSION` is the parameter `commission`.
- **Annualising.** The final `round(100 * ratio ** (12 / (12 * years + months)) - 100, 2)`
  is the function parameter `annualise(ratio, exponent)`. The model computes
  the ratio and the exponent exactly and passes them on.
- **The catalog** is a parameter `Option<seq<BondDescriptor>>`. The gRPC
  session that fetches it is not modelled.
- **The client** is an immutable value. `UpdateBondsStorage` returns the client
  after the call.

Behaviours of the code as written that a reader might not expect, all modelled
as written:

- **Teen years.** The teen exclusion `1 < years // 10 < 2` asks for an integer
  strictly between 1 and 2, so it never fires: 12, 13 and 14 years render as
  "года", where Russian grammar would use "лет".
  `TermFormat.YearsSegment` and `TermFormat.YearsSegmentCases` prove that the
  guard drops out.
- **Zero months.** A month count of 0 is printed as "0 месяцев", even after a
  years segment (`TermFormat.ZeroMonthsRendered`).
- **Coupon dated today.** A coupon is skipped only when today is strictly
  after its date, so a coupon dated today counts towards income
  (`Profitability.CouponDueTodayCounts`).
- **Storage grows.** `update_bonds_storage` appends to the existing `ru_flb`
  list instead of rebuilding it (`BrokerClient.UpdateTwice`).
- **Filter.** Only the qualified-investor flag, the currency and the sector
  are checked. `ru_corp` is never filled.
- **Non-rouble bonds.** Profitability is 0 for any currency other than "rub".
  No currency conversion is applied.

Two consequences of the code as written are proved as lemmas:

- **Lossless term strings.** Rendering a term loses nothing: `ParseTerm` reads
  every rendered term back (`TermFormat.PrepareDateDtRoundTrip`). Different
  terms never render alike (`TermFormat.PrepareDateDtInjective`).
- **Zero month count.** A bond that matured one to five days ago gets the term
  (-1, 12). Its month count is 0, and line 57 of the exporter would divide by
  zero for it (`TermFormat.RecentlyMaturedTermIsZeroMonths`). No other pair of
  dates gives a zero month count (`TermFormat.ZeroMonthTermIsRecentlyMatured`).
  The model lists
  this among the preconditions of the rouble path (`Profitability.Computable`).

## Model

| member | source | states |
|---|---|---|
| TermFormat.DateDt | core/TableExporter.py:10-16 | For every day difference, the years are the number of whole 365-day years, rounded down. The months are the whole 30-day months of the remainder, and lie in 0..12. A difference of 0 to 29 days gives (0, 1). The result is never (0, 0). For a non-negative difference the years are non-negative and the month count 12·years+months is positive. |
| TermFormat.RecentlyMaturedTermIsZeroMonths | core/TableExporter.py:11-16 | A maturity 1 to 5 days in the past gives (-1, 12), whose month count is 0, so the exponent's denominator at line 57 is zero. |
| TermFormat.ZeroMonthTermIsRecentlyMatured | core/TableExporter.py:11-16 | For every pair of dates, the month count of the term is 0 exactly when maturity lies 1 to 5 days before today: this is the one way a term can make the exponent's denominator zero. |
| TermFormat.YearsSegment | core/TableExporter.py:21-26 | The segment is empty exactly when years is 0. Otherwise it is the number, a space, the year noun and a space. The noun follows the reference rule: "год" for exactly 1, "года" for a last digit 2 to 4 with no teen exception, "лет" otherwise. |
| TermFormat.YearsSegmentCases | core/TableExporter.py:21-26 | The years segment case by case: "" for 0; "1 год " for 1; "N года " for every other value whose last digit is 2 to 4, including 12 to 14; "N лет " for every other non-zero value. |
| TermFormat.MonthsSegment | core/TableExporter.py:27-32 | The months segment is always the number, a space and the month noun ("месяц" for 1, "месяца" for 2 to 4, "месяцев" otherwise). |
| TermFormat.MonthsSegmentCases | core/TableExporter.py:27-32 | 1 gives "1 месяц", 2 to 4 give "N месяца", and every other value, 0 and 12 included, gives "N месяцев". |
| TermFormat.PrepareDateDt | core/TableExporter.py:19-33 | With zero years the term string is exactly the months segment. |
| TermFormat.MonthsSegmentEndsTerm | core/TableExporter.py:27-33 | The months segment is always present and always ends the term string. |
| TermFormat.ZeroMonthsRendered | core/TableExporter.py:31-32 | A month count of 0 is not omitted: every term with 0 months ends in "0 месяцев". |
| TermFormat.PrepareDateDtRoundTrip | core/TableExporter.py:19-33 | Parsing a rendered term gives back exactly the (years, months) pair it was rendered from. |
| TermFormat.PrepareDateDtInjective | core/TableExporter.py:19-33 | Two different (years, months) pairs never render to the same string. |
| Decimal.IntToString | core/TableExporter.py:24-32 | The `{years}`/`{months}` f-string rendering of an integer is non-empty, starts with a minus sign exactly when the value is negative, and holds no space, so it stays one word of the term string. That it reads back as the value is `Decimal.IntToStringRoundTrip`. |
| Decimal.IntToStringRoundTrip | core/TableExporter.py:24-32 | The decimal rendering of an integer, as the f-strings print it, parses back to the same integer. |
| Decimal.IntToStringInjective | core/TableExporter.py:24-32 | Different integers render to different strings. |
| Profitability.Upcoming | core/TableExporter.py:46-48 | The coupons kept are exactly those not dated before today, a coupon dated today included. |
| Profitability.UpcomingCounts | core/TableExporter.py:46-48 | Each coupon not dated before today is kept as often as the list holds it, and no past coupon is kept, so duplicate coupons are all counted. |
| Profitability.CouponIncome | core/TableExporter.py:43-49 | The income the loop accumulates is 0.87 times the sum of the values of the coupons dated on or after today. |
| Profitability.CouponIncomeAppend | core/TableExporter.py:46-49 | Coupon income over two joined lists is the sum of the incomes of the parts, and swapping the two blocks changes nothing. |
| Profitability.CouponIncomePermutation | core/TableExporter.py:46-49 | Any two coupon lists holding the same coupons with the same multiplicities give the same income: the order of the coupons does not matter. |
| Profitability.AllPastCouponsEarnNothing | core/TableExporter.py:46-49 | When every coupon is dated before today, no coupon is kept and the income is 0. |
| Profitability.CouponDueTodayCounts | core/TableExporter.py:47-49 | A coupon dated exactly today contributes 0.87 times its value. |
| Profitability.Expenses | core/TableExporter.py:42 | Expenses minus accrued interest equal the price times (1 + commission). With non-negative inputs, expenses are at least the price. |
| Profitability.Repayment | core/TableExporter.py:51-53 | Repayment is the nominal when the nominal does not exceed the price. Otherwise the holder keeps 87% of the gain over the price, which puts the repayment strictly between price and nominal. |
| Profitability.Proceeds | core/TableExporter.py:55 | Proceeds exceed the repayment by 0.87 times the sum of the upcoming coupon values. |
| Profitability.AnnualExponent | core/TableExporter.py:57 | The exponent times the term's month count is 12. |
| Profitability.AnnualProfitability | core/TableExporter.py:36-39 | Any currency other than "rub" yields 0, whatever the other inputs. |
| Profitability.RubProfitability | core/TableExporter.py:41-57 | For a rouble bond the figure is `annualise` applied to two values. The first is the after-tax repayment plus the coupon income (0.87 times the sum of the coupons not dated before today) over the price times (1 + commission) plus accrued interest. The second is the exponent 12 / (12·years + months). |
| Profitability.ProfitabilityIgnoresPastCoupons | core/TableExporter.py:46-57 | Removing the past coupons from the list never changes the profitability. |
| Profitability.ProfitabilityDependsOnTermMonths | core/TableExporter.py:57 | Two terms with the same month count, such as (1, 0) and (0, 12), give the same profitability. |
| Profitability.ParBondWithOneCoupon | core/TableExporter.py:46-55 | A bond bought at its nominal of 1000 with one upcoming coupon of 40 has proceeds of 1034.8. |
| TableExporter.BondProfitability | core/TableExporter.py:60-64 | The row's profitability is 0 for a bond not in roubles. |
| TableExporter.RubBondProfitability | core/TableExporter.py:60-64 | For a rouble bond, the row's figure is computed from the bond's own coupons, nominal, price and accrued interest. The proceeds over the expenses are annualised over the term from today to the bond's maturity date. |
| TableExporter.RowCells | core/TableExporter.py:65-70 | The row list in the source's order: ticker, name, currency, placement date, maturity date, term text, coupons per year, price (`real_value`), nominal and profitability, exactly 10 cells. |
| TableExporter.GetRowList | core/TableExporter.py:59-70 | A row has exactly 10 cells. The ticker is at index 0, the term string for today to maturity (`TermText`, the `_prepare_date_dt(*date_diff)` of lines 60 and 68) at index 5, and the profitability at index 9, which is 0 for a non-rouble bond. |
| TableExporter.RowTermReadsBack | core/TableExporter.py:59-70 | The term cell of a row parses back to the bond's (years, months) to maturity. |
| TableExporter.GetTable | core/TableExporter.py:72-73 | One row per bond, in the bonds' order. Row i is the row of bond i, with 10 cells and that bond's ticker first. |
| TableExporter.GetTableAppend | core/TableExporter.py:72-73 | The table of two joined bond lists is the two tables joined. |
| TableExporter.UnmaturedBondIsExportable | core/TableExporter.py:56-57 | A bond not yet matured, with positive price and non-negative accrued interest and commission, never hits either division by zero. |
| TableExporter.ForeignBondsShowZero | core/TableExporter.py:38-39 | Every non-rouble bond of a table shows profitability 0. |
| BrokerClient.NewClient | core/BrokerClient.py:34-37 | A fresh client has the given token and both `ru_flb` and `ru_corp` empty. |
| BrokerClient.SetToken | core/BrokerClient.py:39-44 | After `set_token`, `token` returns the new value and `get_bonds` returns the same storage as before. |
| BrokerClient.ToStoredBond | core/BrokerClient.py:58-67 | The stored record carries ticker, name, accrued interest, currency, and the placement and maturity days. Its nominal is the whole-units part of the nominal only. It also carries the coupons per year. |
| BrokerClient.FlbEntries | core/BrokerClient.py:54-58 | No more entries than catalog bonds, and every catalog bond that passes the three conditions (`IsFederalLoanBond`: not for qualified investors, currency "rub", sector "government", the nested ifs of lines 55-57) has its record among them. |
| BrokerClient.FederalIndices | core/BrokerClient.py:54-57 | The positions of the bonds passing the three conditions of lines 55-57 (`IsFederalLoanBond`), strictly increasing, missing none. |
| BrokerClient.FlbEntriesFollowCatalog | core/BrokerClient.py:54-58 | Entry k is the record of the k-th catalog bond that passes the three conditions. The entries are exactly the selected bonds, in catalog order. |
| BrokerClient.FlbEntriesAppend | core/BrokerClient.py:52-58 | One pass over two joined catalogs appends what two passes over the parts append. |
| BrokerClient.UpdateBondsStorage | core/BrokerClient.py:49-58 | A `None` catalog leaves the client unchanged. Otherwise the old `ru_flb` entries stay in front and the selected records follow. `ru_corp` and the token never change. |
| BrokerClient.UpdateTwice | core/BrokerClient.py:52-58 | Two passes over the same catalog append its selected records twice. Storage only grows. |

## Left out

- The floating-point power and `round(..., 2)` at core/TableExporter.py:57 are left to the caller-supplied `annualise` function, because they are floating-point operations with no exact counterpart over `real`. The other ways line 57 can fail besides a zero month count are inside this abstraction too: a negative ratio with a fractional exponent makes `**` return a complex number on which `round` raises `TypeError`; a zero ratio with a negative exponent (a matured bond) raises `ZeroDivisionError`; and a power outside the range of a double (a huge ratio over a one-month term, or a tiny ratio with a negative exponent) raises `OverflowError`. A total `annualise` returns a number for all of them.
- Profitability.AnnualProfitability: its own contract states only the non-rouble case. The rouble case is the lemma `Profitability.RubProfitability`, which gives the value as `annualise` of the closed-form ratio and exponent. Nothing is promised about the number `annualise` returns.
- Float rounding of `0.87`, `0.13` and the sums is not modelled, because money is `real`.
- `datetime.date.today()` is the parameter `today`. The source reads the clock afresh for every row (core/TableExporter.py:60) and again for each rouble row's coupons (core/TableExporter.py:44). The model assumes all clock reads of one table return the same day, so it does not cover a table built across midnight, whose rows, or whose term and coupon income within one row, could use two different dates. `strftime("%d-%m-%Y")` is left out: a date cell (`Day`) holds the day ordinal it would print.
- `cfg.COMMISSION` is the parameter `commission`, because configuration loading is outside the core.
- The gRPC session, the `Client` class and the use of the token to open it are left out (core/BrokerClient.py:50-51). They are network I/O; the catalog they return is the parameter of `UpdateBondsStorage`.
- Python object identity is not modelled: `get_bonds` returns the live dict, and a later update shows through an earlier result. The model returns values.
- The catalog records lack the `real_value` and `coupons` keys that `_get_row_list` reads, and their `aci` is a provider money value, not a number. On real data the exporter would fail. The exporter's `Bond` record therefore requires these fields as numbers, and no conversion from `StoredBond` to `Bond` is modelled.
- Division by zero (zero expenses at line 56, zero month count at line 57) is a precondition of the rouble path (`Profitability.Computable`), not a modelled error.
- BrokerClient.FlbEntries: its own contract does not say that every entry comes from a selected bond. That direction, with the order, is `BrokerClient.FlbEntriesFollowCatalog`, because the existential form made the other proofs slow.
- The default `token: str = ""` of `__init__` and `set_token` (core/BrokerClient.py:34, 39) is not a separate member: the call without an argument is `NewClient("")` or `SetToken(c, "")`.
- `Token` and `GetBonds` have no contract of their own. They return the stored fields, and their behaviour is stated through `NewClient`, `SetToken` and `UpdateBondsStorage`.
- core/TableClient.py (Google Sheets access) and BondsScreener.py (wiring and printing) are pure I/O.
- The abstract `BrokerClient` base class declares no behaviour beyond `TinkoffClient`'s.
- Rate limiting, retries, currency-rate tables, the effective (reinvestment) yield, the MoneyValue decoder, the extra eligibility flags and the other buckets are left out, because the code does not have them.
