# Weekly port alert computation, in Dafny

This project models the decision logic of `port_report_generator.py`, a batch
script that reads shipment rows and flags departure ports whose outflow is
falling behind inflow. The script works through these steps:

1. Drop rows that lack a departure port or a first-leg carrier.
2. Take the rows whose tender date or shipment date falls in the reference week,
   and separately those that fall in the week before.
3. Tag each selected row as inbound (tendered that week) or outbound (shipped
   that week but not tendered). Inbound takes priority.
4. Count inbound and outbound units per (port, carrier).
5. Sum those counts per port and inner-join the two weeks on port.
6. Compute each week's outflow/inflow ratio and the change between them. The
   ratio is undefined when inflow is zero.
7. Alert every port whose ratio this week is strictly below 0.8.

For each alerted port, the report also prints a per-carrier breakdown. In that
breakdown, a carrier missing from last week gets zero counts, and a ratio with
zero inflow is shown as 0.

The script hard-codes the reference Monday. The model takes it as a parameter
(`WeeklyAlert(raw, thisMonday)`).

Modules, in pipeline order:

- `Options`: the optional value for missing cells and undefined ratios.
- `Calendar`: day numbers and Monday-to-Sunday weeks. Day 0 is Monday 1 January
  of year 1 (proleptic Gregorian), so a week starts at `d - d % 7`.
- `Records`: spreadsheet rows and the cleaning step.
- `Windowing`: week selection and the two-pass IN/OUT tagging.
- `Counts`: unit counts and exact-rational ratios with the zero guard.
- `Tables`: group-by tables keyed by (port, carrier) or by port, with one entry
  per key.
- `Summary`: the per-(port, carrier) summary of one week.
- `Comparison`: the per-port roll-up, the inner join, the change in ratio and
  the alert selection.
- `CarrierDetail`: the per-carrier breakdown rule.
- `Report`: the whole computation and its end-to-end properties.

Ratios are exact `real` values. The 0.8 threshold is exactly 4/5, and an
equivalent integer test is proved: `5 * out < 4 * in` with `in > 0`.

## Model

| member | source | states |
|---|---|---|
| Calendar.WeekStart | PythonGlovis/port_alert_automation/port_report_generator.py:30-31 | the weekly period of a date starts on a Monday no more than six days before it |
| Calendar.WeekOfMatches | PythonGlovis/port_alert_automation/port_report_generator.py:30-34 | a date's week start equals a reference Monday iff the date lies in the seven days from that Monday; a missing (unparsed) date matches no week |
| Records.Clean | PythonGlovis/port_alert_automation/port_report_generator.py:23 | every row with both port and carrier is kept, and every kept row comes from such a row |
| Records.IncompleteRowDropped | PythonGlovis/port_alert_automation/port_report_generator.py:23 | removing a row without port or carrier, from any position, leaves the cleaned rows unchanged |
| Windowing.MovementOf | PythonGlovis/port_alert_automation/port_report_generator.py:34-37 | the two tagging passes tag a row exactly when the subset filter selects it, so every selected row gets a movement type |
| Windowing.MovementPriority | PythonGlovis/port_alert_automation/port_report_generator.py:35-37 | a row is IN iff it was tendered during the week; it is OUT iff it was not tendered but was shipped during the week; so IN wins when both dates fall in the week |
| Windowing.Window | PythonGlovis/port_alert_automation/port_report_generator.py:34-37 | a row is in a week's subset iff it is selected for that week, and it carries the movement type the passes give it; no row with both dates missing is ever in a subset |
| Windowing.WindowAppend | PythonGlovis/port_alert_automation/port_report_generator.py:34 | selection works row by row and keeps row order: the subset of a concatenation is the concatenation of the subsets |
| Windowing.NonMondaySelectsNothing | PythonGlovis/port_alert_automation/port_report_generator.py:27-34 | a reference date that is not a Monday selects no rows, because week starts are Mondays |
| Counts.Ratio | PythonGlovis/port_alert_automation/port_report_generator.py:50 | the ratio is undefined exactly when inflow is 0; otherwise the ratio times inflow equals outflow |
| Counts.ShownRatioIsRatioOrZero | PythonGlovis/port_alert_automation/port_report_generator.py:115-116 | the breakdown's ratio is the undefined-aware ratio, with "undefined" shown as 0 |
| Tables.Add | PythonGlovis/port_alert_automation/port_report_generator.py:47-49 | adding units under a key keeps keys unique, adds that key, adds the units to that key only, and adds them to the table total |
| Summary.Summarize | PythonGlovis/port_alert_automation/port_report_generator.py:46-49 | one entry per (port, carrier) in the subset; its units are the numbers of IN and OUT rows of that group (0 for a missing type); the counts over all groups add up to the subset size |
| Summary.SummaryEntriesNonEmpty | PythonGlovis/port_alert_automation/port_report_generator.py:47-49 | no summary group has zero IN units and zero OUT units |
| Comparison.RollUp | PythonGlovis/port_alert_automation/port_report_generator.py:58-59 | one entry per port of the summary, holding the sum of that port's carrier units; grand totals are unchanged |
| Comparison.RollUpCountsRows | PythonGlovis/port_alert_automation/port_report_generator.py:47-59 | a port's rolled-up units are the numbers of IN and OUT rows at that port in the week's subset, over all carriers |
| Comparison.PortComparison.Delta | PythonGlovis/port_alert_automation/port_report_generator.py:63-65 | the change is defined iff both weeks have inflow, and then it is this week's ratio minus last week's |
| Comparison.Merge | PythonGlovis/port_alert_automation/port_report_generator.py:57-62 | inner join: a comparison row exists for exactly each pair of entries, one per week, that share a port |
| Comparison.MergeOfPortTables | PythonGlovis/port_alert_automation/port_report_generator.py:57-62 | for port tables with unique keys, the compared ports are exactly those present in both weeks, with the units each week's table holds, and no port is on two rows |
| Comparison.ComparedPortsPresent | PythonGlovis/port_alert_automation/port_report_generator.py:57-62 | a port that reaches the comparison occurs in both weeks' summaries |
| Comparison.MergePortsDistinct | PythonGlovis/port_alert_automation/port_report_generator.py:57-62 | joining two tables that each hold one entry per port gives at most one comparison row per port |
| Comparison.AlertedPortsDistinct | PythonGlovis/port_alert_automation/port_report_generator.py:66-88 | filtering the comparison keeps one row per port, so each alerted port is listed once and has one comparison row to look up |
| Comparison.AlertWithoutDelta | PythonGlovis/port_alert_automation/port_report_generator.py:63-66 | a port whose inflow last week is zero is still alerted when this week's counts meet the condition, and then it has no change of ratio |
| Comparison.Alerted | PythonGlovis/port_alert_automation/port_report_generator.py:66 | a row is alerted iff it is in the comparison and its ratio this week is defined and strictly below 0.8 |
| Comparison.AlertedAppend | PythonGlovis/port_alert_automation/port_report_generator.py:66 | alert selection works row by row, so alerted rows keep the comparison's order |
| Comparison.AlertByCounts | PythonGlovis/port_alert_automation/port_report_generator.py:63-66 | alerted iff inflow this week is positive and 5 × outflow < 4 × inflow; a ratio of exactly 0.8 or an undefined ratio is not alerted |
| Comparison.SummedNotAveraged | PythonGlovis/port_alert_automation/port_report_generator.py:57-66 | an example where the port ratio from summed counts (0.9, no alert) differs from the mean of the carrier ratios (0.5) |
| CarrierDetail.CarrierLines | PythonGlovis/port_alert_automation/port_report_generator.py:107-113 | one line per distinct carrier of the port in this week's summary; each line's carrier has a group in this week's summary, so the lookup at line 108 finds a row, and the line holds that row's units; last week's units are those of the carrier's group when last week has one, else 0/0 |
| CarrierDetail.MarkByCounts | PythonGlovis/port_alert_automation/port_report_generator.py:115-118 | the falling marker appears iff the shown ratio dropped, stated with integer cross products (a zero inflow counts as ratio 0) |
| Report.PreviousMonday | PythonGlovis/port_alert_automation/port_report_generator.py:28 | last week's reference day is a Monday iff this week's is, and it starts the week before |
| Report.WeeklyAlert | PythonGlovis/port_alert_automation/port_report_generator.py:53-66 | both summaries have unique keys, the alerted rows are exactly the comparison rows that meet the alert condition, the comparison and the alerted rows each hold one row per port, and every compared port occurs in both weeks' summaries |
| Report.AlertDetail | PythonGlovis/port_alert_automation/port_report_generator.py:107-113 | for an alerted port, the breakdown lists each carrier the port has in this week's summary exactly once, with this week's units for that group and last week's units or 0/0 |
| Report.AlertDetailNonEmpty | PythonGlovis/port_alert_automation/port_report_generator.py:87-107 | an alerted port that has rows this week (which WeeklyAlert guarantees) has at least one line in its carrier table |
| Report.IncompleteRowIgnored | PythonGlovis/port_alert_automation/port_report_generator.py:23 | a row missing port or carrier has no effect on any part of the report |
| Report.ComparedPorts | PythonGlovis/port_alert_automation/port_report_generator.py:57-62 | a port is compared iff some cleaned row at that port is selected this week and some is selected last week; a port seen in only one week is dropped |
| Report.ComparisonCounts | PythonGlovis/port_alert_automation/port_report_generator.py:57-64 | each comparison row holds, for each week, the IN and OUT row counts at its port summed over carriers, and the ratios come from these sums |
| Report.AlertedPorts | PythonGlovis/port_alert_automation/port_report_generator.py:63-66 | end to end, a port is alerted iff it is compared, has inflow this week, and 5 × outflow < 4 × inflow |

## Left out

- Reading the workbook, trimming column names and renaming columns (lines 17-18, 24) are file I/O. The model starts from rows that are already loaded.
- Date parsing (lines 20-21) is left out. A date that does not parse is `None`, and so is an empty cell. Time of day is not kept, since the weekly period does not depend on it.
- The reference Monday (line 27) is a parameter instead of the fixed date 2025-07-14.
- Floating-point division is replaced by exact rationals. A ratio and 0.8 compare the same way in both as long as inflow stays far below 10^15, because then no fraction other than 4/5 lies close enough to 0.8 to round onto it.
- Row order of the group-by tables: pandas sorts group keys, while the model keeps keys in order of first appearance. This only changes the order of the comparison rows, the alerted rows and the breakdown lines. It does not change their contents.
- Summary.Summarize counts both movement types in one pass over the rows. The script counts IN and OUT separately, joins the two counts and fills gaps with 0. The result is the same table, and the contract states the fill-with-0 behaviour.
- pandas missing-value semantics are modelled as `None`. A comparison with a missing ratio is false, so a missing ratio is never alerted.
- Excel export and sheet-name truncation (lines 69-74), CSV export (line 149) and the date-stamped file names (lines 12-14) are file output.
- The port-level arrow at line 89 compares the port's Delta with 0. When an alerted port had no inflow last week, its Delta is missing (for example, one row at port P tendered on day 14 and one shipped on day 7, with the reference Monday on day 14). `Comparison.AlertWithoutDelta` shows such ports are alerted. What line 89 does then depends on the column type pandas gives `replace(0, pd.NA)`. On an object column, `pd.NA >= 0` has no truth value and the script stops with a TypeError. On a float column, NaN compares false and the red arrow is shown. The model returns the report with `Delta()` equal to `None` and does not choose between the two.
- HTML construction is presentation and is left out (lines 77-106, 119-146). This includes `.2f` formatting and the port-level arrow at line 89. Only the numeric per-carrier rule (lines 107-118) is modelled.
- Email sending, environment variables and the dotenv load (lines 3-9, 152-179) are network I/O and configuration.
- Idempotence (the same input gives the same report) holds because every operation is a Dafny function. It needs no lemma.
