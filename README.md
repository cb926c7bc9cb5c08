# Latest blocks widget: formatting, row list and block-age monitor

A Dafny model of the logic inside the dashboard's "latest blocks" widget
(`src/components/LatestBlocks/index.tsx`):

- **Formatting** (`LatestBlocks.FormatGas`, `LatestBlocks.FormatFees`): a base fee is
  scaled from wei to gwei and rounded; fees are shown in ETH or USD depending on the
  unit. A value that is not a number gives an absent result. There is no fallback to
  zero or to the other field. The number formatters of the external `format` module are
  uninterpreted function parameters (`Formatters`).
- **Row list** (`LatestBlocks.DisplayedBlocks`, `RowKey`, `BlockHref`, `RenderRows`):
  before the data loads, 20 empty skeleton records are shown. Afterwards the loaded list
  is shown exactly as given. Each row's key is `number || index`. Its link is the
  Etherscan block URL, or absent when the number is absent. `Decimal.Show` is the
  decimal text that a template literal gives for a block number.
- **Block-age monitor** (`BlockAge.LatestBlockAge`): a class that holds the component's
  `timeElapsed` state, the interval started by the effect's latest run, and the window's
  table of this component's scheduled intervals. `OnSnapshot` is one effect re-run:
  cleanup, then re-anchor. `Tick` is one interval callback. `Dispose` is unmount. The
  invariant `Valid()` states that the window schedules exactly the interval the
  component holds, so at most one interval is ever live. `AgeIndicator` shows
  "resyncing" exactly when the elapsed time is known and above 1800 seconds.

Inputs from outside are parameters. The decoded snapshot is an
`Option<seq<LatestBlock>>` (absent = not loaded). The current time `now` and each
block's `minedAt` are whole seconds. The unit and the formatters are also parameters.

Three behaviours of the code worth noting:
- A loaded list is not padded or truncated to 20 rows.
- A new snapshot re-anchors the age unconditionally, even when its newest block is
  older than the one already tracked. `BlockAge.AgeScenario` shows the age jumping back
  up.
- An absent or empty snapshot clears the interval and leaves `timeElapsed` at its last
  value.

## Model

| member | source | states |
|---|---|---|
| LatestBlocks.FormatGas | src/components/LatestBlocks/index.tsx:28-32 | absent exactly when the value is not a number; otherwise the zero-decimal format of the value divided by wei-per-gwei |
| LatestBlocks.FormatGasOfGwei | src/components/LatestBlocks/index.tsx:28-32 | a wei amount of `g` gwei is formatted as `g` itself |
| LatestBlocks.FormatFees | src/components/LatestBlocks/index.tsx:34-43 | with unit eth, absent iff `fees` is absent; with any other unit, absent iff `feesUsd` is absent |
| LatestBlocks.FormatFeesUsesOneField | src/components/LatestBlocks/index.tsx:34-43 | with eth the result does not depend on `feesUsd` and is the two-digit wei format of `fees`; otherwise it does not depend on `fees` and is the zero-decimal format of `feesUsd` |
| LatestBlocks.LatestBlockFeesSkeletons | src/components/LatestBlocks/index.tsx:45-47 | exactly 20 records, each with every field absent |
| LatestBlocks.ToPartial | src/components/LatestBlocks/index.tsx:194 | a loaded block seen as a partial record keeps every field, all present where the block has them |
| LatestBlocks.DisplayedBlocks | src/components/LatestBlocks/index.tsx:191-194 | not loaded: the skeleton list; loaded: the same length and, position by position, the loaded blocks |
| LatestBlocks.RowKey | src/components/LatestBlocks/index.tsx:196 | the block number when present and non-zero, otherwise the position index |
| LatestBlocks.BlockHref | src/components/LatestBlocks/index.tsx:128-132 | absent iff the number is absent; otherwise the Etherscan block prefix followed by the block number's decimal text (`Decimal.Show`), digits that read back as the number, with `0` alone for block 0 |
| LatestBlocks.BlockHrefInjective | src/components/LatestBlocks/index.tsx:128-132 | two rows with the same link have the same block number |
| LatestBlocks.UnitLabel | src/components/LatestBlocks/index.tsx:155 | "ETH" exactly for the eth unit, "USD" for any other |
| LatestBlocks.RenderRow | src/components/LatestBlocks/index.tsx:128-204 | one row: key is the number unless missing or 0 (then the index); link absent iff the number is, else the block URL; base fee is `FormatGas` of the block's base fee and fees are `FormatFees` of the unit and the two fee fields (absent iff the unit's field is); the unit label |
| LatestBlocks.LatestBlocksRows | src/components/LatestBlocks/index.tsx:191-205 | 20 rows before loading, one per block after; the loaded row `i` renders block `i` at position `i` |
| LatestBlocks.RenderRows | src/components/LatestBlocks/index.tsx:191-205 | one rendered row per element, in order, the element at offset `i` rendered with position `from + i` |
| LatestBlocks.SkeletonRows | src/components/LatestBlocks/index.tsx:191-196 | before loading, exactly 20 rows; row `i` has key `i`, no link, no base fee and no fees |
| LatestBlocks.LoadedRows | src/components/LatestBlocks/index.tsx:191-204 | after loading, one row per block in order; its key is the number (or the index for 0), its link the block URL, and its values the formatted fields of that block |
| LatestBlocks.LoadedKeysDistinct | src/components/LatestBlocks/index.tsx:196 | loaded blocks with distinct non-zero numbers get distinct row keys |
| LatestBlocks.ZeroNumberKeyIsIndex | src/components/LatestBlocks/index.tsx:196 | a block numbered 0 at position `k` gets the same key `k` as a block numbered `k`, wherever that block stands |
| LatestBlocks.ZeroNumberKeyMayClash | src/components/LatestBlocks/index.tsx:196 | block 0 at position 1 after block 1 gets the same key 1 as that block |
| Decimal.Show | src/components/LatestBlocks/index.tsx:131 | the text of a block number is non-empty decimal digits with no leading zero; block 0 is exactly `0` |
| Decimal.ValueOfShow | src/components/LatestBlocks/index.tsx:131 | reading the digits back gives the number |
| Decimal.ShowInjective | src/components/LatestBlocks/index.tsx:131 | distinct numbers have distinct texts |
| BlockAge.AgeIndicator | src/components/LatestBlocks/index.tsx:86-95 | resyncing iff the elapsed time is defined and strictly above 1800; otherwise the age view carries the elapsed time (undefined shows the skeleton) |
| BlockAge.ResyncingPersists | src/components/LatestBlocks/index.tsx:86 | an age that shows resyncing stays resyncing at every larger age |
| BlockAge.NewestMinedAt | src/components/LatestBlocks/index.tsx:61-69 | present iff the snapshot has loaded and is non-empty, and then the first block's `minedAt` |
| BlockAge.LatestBlockAge.Indicator | src/components/LatestBlocks/index.tsx:86 | the rendered view is resyncing iff the component's `timeElapsed` is defined and above 1800 |
| BlockAge.LatestBlockAge.constructor | src/components/LatestBlocks/index.tsx:58 | on mount, `timeElapsed` is undefined and no interval is scheduled |
| BlockAge.LatestBlockAge.OnSnapshot | src/components/LatestBlocks/index.tsx:60-84 | the previous run's interval is cleared; with a newest block, `timeElapsed = now - minedAt` and one new interval anchored at that `minedAt` is the only one scheduled; otherwise no interval and `timeElapsed` unchanged |
| BlockAge.LatestBlockAge.Tick | src/components/LatestBlocks/index.tsx:75-79 | the live interval's callback sets `timeElapsed = now - anchor` for the anchor of the last run that had a block; any other id changes nothing |
| BlockAge.LatestBlockAge.Dispose | src/components/LatestBlocks/index.tsx:81-83 | on unmount no interval remains scheduled and the invariant holds |
| BlockAge.LatestBlockAge.Cleanup | src/components/LatestBlocks/index.tsx:81-83 | the cleanup clears the interval the previous run started, leaving none scheduled |

## Left out

- React rendering, JSX markup, CSS classes and the `Resyncing`, `SkeletonText` and text components: presentation only. A row is modelled as its key, link, formatted values and unit label.
- The hooks `useGroupedAnalysis1`, `decodeGroupedAnalysis1`, `useBlockLag` and `useBaseFeePerGasStats` fetch and decode data in modules that are not part of this model. The snapshot is a parameter, and the block lag (line 211) is only passed through, so it is not modelled.
- `Format.formatZeroDecimals` and `Format.formatWeiTwoDigit` are uninterpreted parameters. `Format.formatBlockNumber` (line 139) is presentation and is not modelled.
- The gradient colour choice (lines 113-123) compares floating-point values against external statistics. It is not modelled.
- RenderRow, SkeletonRows and LoadedRows: assume that every row renders. Line 114 reads `baseFeePerGasStats.barrier` before the undefined checks at lines 116 and 119, so if the statistics hook yields `undefined`, every row render throws, the 20 skeleton rows included. That error path is not modelled.
- JavaScript numbers are modelled as exact reals, without NaN or Infinity, and the division by wei-per-gwei is exact. The value 1e9 of `WEI_PER_GWEI` is taken from the `eth-units` module, which is not part of this model.
- Decimal.Show: gives plain digits for every natural number. JavaScript switches to exponent notation at 10^21, which block numbers never reach.
- `minedAt` is whole seconds instead of a date string parsed by `new Date`. `DateFns.differenceInSeconds` is modelled as subtraction of seconds, and the wall clock `new Date()` is the `now` parameter.
- Timer scheduling is modelled as a table of interval ids. A tick is an explicit `Tick` call for one id. The dependency-identity check of `useEffect` is not modelled: every snapshot delivery is a re-run.
- The age text (`String(timeElapsed)`, line 95) is modelled as the number it shows, not as text.
