/**
 * The pure logic of the latest-blocks widget: formatting a block's base fee and
 * fees with absent values propagated, choosing between the loading skeleton and
 * the loaded list, and the key and explorer link of each rendered row.
 */
module LatestBlocks {
  import opened Wrappers
  import Decimal

  /** The display denomination; "eth" selects the native fee field, any other unit the USD one. */
  datatype Unit = Eth | Usd

  /**
   * The number formatters of the external `format` module, left uninterpreted:
   * `formatZeroDecimals` rounds to a whole number, `formatWeiTwoDigit` shows a
   * wei amount in ETH with two digits.
   */
  datatype Formatters = Formatters(formatZeroDecimals: real -> string, formatWeiTwoDigit: real -> string)

  /** Wei in one gwei. */
  const WeiPerGwei: real := 1000000000.0

  /** Rows shown while the data has not loaded. */
  const MaxBlocks: nat := 20

  /** One decoded block of the feed, newest first in its list; `minedAt` in seconds. */
  datatype LatestBlock = LatestBlock(
    number: nat,
    minedAt: int,
    baseFeePerGas: Option<real>,
    fees: Option<real>,
    feesUsd: Option<real>)

  /** A block with every field optional, the element type of the rendered list. */
  datatype PartialBlock = PartialBlock(
    number: Option<nat>,
    minedAt: Option<int>,
    baseFeePerGas: Option<real>,
    fees: Option<real>,
    feesUsd: Option<real>)

  /** What one rendered row shows: its reconciliation key, link, base fee, fees and unit label. */
  datatype Row = Row(key: nat, href: Option<string>, baseFee: Option<string>, fees: Option<string>, unitLabel: string)

  /** The base fee in gwei, rounded; absent exactly when the value is not a number. */
  function FormatGas(fmt: Formatters, u: Option<real>): (r: Option<string>)
    ensures r.None? <==> u.None?
    ensures u.Some? ==> r == Some(fmt.formatZeroDecimals(u.value / WeiPerGwei))
  {
    match u
    case None => None
    case Some(wei) => Some(fmt.formatZeroDecimals(wei / WeiPerGwei))
  }

  /** Fees in the chosen unit; the other field is never consulted and never substituted. */
  function FormatFees(fmt: Formatters, unit: Unit, fees: Option<real>, feesUsd: Option<real>): (r: Option<string>)
    ensures unit == Eth ==> (r.None? <==> fees.None?)
    ensures unit != Eth ==> (r.None? <==> feesUsd.None?)
  {
    if unit == Eth then
      match fees
      case None => None
      case Some(wei) => Some(fmt.formatWeiTwoDigit(wei))
    else
      match feesUsd
      case None => None
      case Some(usd) => Some(fmt.formatZeroDecimals(usd))
  }

  /** An amount given in whole gwei, scaled up to wei, is formatted as that gwei amount. */
  lemma FormatGasOfGwei(fmt: Formatters, gwei: real)
    ensures FormatGas(fmt, Some(gwei * WeiPerGwei)) == Some(fmt.formatZeroDecimals(gwei))
  {
  }

  /** With unit Eth the result depends on `fees` alone; with any other unit on `feesUsd` alone. */
  lemma FormatFeesUsesOneField(fmt: Formatters, unit: Unit, fees: Option<real>, feesUsd: Option<real>, fees': Option<real>, feesUsd': Option<real>)
    ensures unit == Eth ==> FormatFees(fmt, unit, fees, feesUsd) == FormatFees(fmt, unit, fees, feesUsd')
    ensures unit == Eth && fees.Some? ==> FormatFees(fmt, unit, fees, feesUsd) == Some(fmt.formatWeiTwoDigit(fees.value))
    ensures unit != Eth ==> FormatFees(fmt, unit, fees, feesUsd) == FormatFees(fmt, unit, fees', feesUsd)
    ensures unit != Eth && feesUsd.Some? ==> FormatFees(fmt, unit, fees, feesUsd) == Some(fmt.formatZeroDecimals(feesUsd.value))
  {
  }

  /** The empty record the skeleton list is filled with. */
  const EmptyBlock := PartialBlock(None, None, None, None, None)

  /** The list rendered while loading: `MaxBlocks` empty records. */
  function LatestBlockFeesSkeletons(): (s: seq<PartialBlock>)
    ensures |s| == MaxBlocks && forall i :: 0 <= i < |s| ==> s[i] == EmptyBlock
  {
    seq(MaxBlocks, _ => EmptyBlock)
  }

  /** A loaded block seen as a partial one: every field present. */
  function ToPartial(b: LatestBlock): (p: PartialBlock)
    ensures p.number == Some(b.number) && p.minedAt == Some(b.minedAt)
    ensures p.baseFeePerGas == b.baseFeePerGas && p.fees == b.fees && p.feesUsd == b.feesUsd
  {
    PartialBlock(Some(b.number), Some(b.minedAt), b.baseFeePerGas, b.fees, b.feesUsd)
  }

  /** The list that is rendered: the skeletons before the data has loaded, the loaded list afterwards. */
  function DisplayedBlocks(latestBlockFees: Option<seq<LatestBlock>>): (rows: seq<PartialBlock>)
    ensures latestBlockFees.None? ==> rows == LatestBlockFeesSkeletons()
    ensures latestBlockFees.Some? ==> |rows| == |latestBlockFees.value|
    ensures latestBlockFees.Some? ==>
      forall i :: 0 <= i < |rows| ==> rows[i] == ToPartial(latestBlockFees.value[i])
  {
    match latestBlockFees
    case None => LatestBlockFeesSkeletons()
    case Some(blocks) => seq(|blocks|, i requires 0 <= i < |blocks| => ToPartial(blocks[i]))
  }

  /** The row key `number || index`: the block number unless it is missing or 0. */
  function RowKey(number: Option<nat>, index: nat): (key: nat)
    ensures number.Some? && number.value != 0 ==> key == number.value
    ensures number.None? || number.value == 0 ==> key == index
  {
    if number.Some? && number.value != 0 then number.value else index
  }

  const EtherscanBlockPrefix := "https://etherscan.io/block/"

  /** The block's explorer link, absent when the number is. */
  function BlockHref(number: Option<nat>): (href: Option<string>)
    ensures href.None? <==> number.None?
    ensures href.Some? ==>
      |href.value| > |EtherscanBlockPrefix|
      && href.value[..|EtherscanBlockPrefix|] == EtherscanBlockPrefix
      && Decimal.AllDigits(href.value[|EtherscanBlockPrefix|..])
    ensures number.Some? ==>
      && Decimal.Value(href.value[|EtherscanBlockPrefix|..]) == number.value
      && (href.value[|EtherscanBlockPrefix|] == '0' <==> number.value == 0)
    ensures number.Some? ==> href == Some(EtherscanBlockPrefix + Decimal.Show(number.value))
  {
    match number
    case None => None
    case Some(n) =>
      var href := EtherscanBlockPrefix + Decimal.Show(n);
      assert href[|EtherscanBlockPrefix|..] == Decimal.Show(n);
      Decimal.ValueOfShow(n);
      Some(href)
  }

  /** Different blocks link to different pages. */
  lemma BlockHrefInjective(a: Option<nat>, b: Option<nat>)
    requires BlockHref(a) == BlockHref(b)
    ensures a == b
  {
    if a.Some? {
      var ha, hb := BlockHref(a).value, BlockHref(b).value;
      assert ha[|EtherscanBlockPrefix|..] == Decimal.Show(a.value);
      assert hb[|EtherscanBlockPrefix|..] == Decimal.Show(b.value);
      Decimal.ShowInjective(a.value, b.value);
    }
  }

  /** The unit shown after the fees: "ETH" for the native unit, "USD" otherwise. */
  function UnitLabel(unit: Unit): (text: string)
    ensures text == "ETH" <==> unit == Eth
    ensures text == "USD" <==> unit != Eth
  {
    if unit == Eth then "ETH" else "USD"
  }

  /** One block at position `index`, rendered. */
  function RenderRow(fmt: Formatters, unit: Unit, b: PartialBlock, index: nat): (row: Row)
    ensures row.key == (if b.number.Some? && b.number.value != 0 then b.number.value else index)
    ensures row.href.None? <==> b.number.None?
    ensures b.number.Some? ==> row.href == Some(EtherscanBlockPrefix + Decimal.Show(b.number.value))
    ensures row.baseFee.None? <==> b.baseFeePerGas.None?
    ensures row.fees.None? <==> (if unit == Eth then b.fees.None? else b.feesUsd.None?)
    ensures row.baseFee == FormatGas(fmt, b.baseFeePerGas)
    ensures row.fees == FormatFees(fmt, unit, b.fees, b.feesUsd)
    ensures row.unitLabel == UnitLabel(unit)
  {
    Row(RowKey(b.number, index), BlockHref(b.number), FormatGas(fmt, b.baseFeePerGas),
        FormatFees(fmt, unit, b.fees, b.feesUsd), UnitLabel(unit))
  }

  /** The list rendered element by element, the first at position `from`, order kept. */
  function RenderRows(fmt: Formatters, unit: Unit, blocks: seq<PartialBlock>, from: nat): (rows: seq<Row>)
    ensures |rows| == |blocks|
    ensures forall i :: 0 <= i < |blocks| ==> rows[i] == RenderRow(fmt, unit, blocks[i], from + i)
    decreases |blocks|
  {
    if blocks == [] then [] else [RenderRow(fmt, unit, blocks[0], from)] + RenderRows(fmt, unit, blocks[1..], from + 1)
  }

  /** The rows of the latest-blocks list for a snapshot that may not have loaded yet. */
  function LatestBlocksRows(fmt: Formatters, unit: Unit, latestBlockFees: Option<seq<LatestBlock>>): (rows: seq<Row>)
    ensures |rows| == if latestBlockFees.None? then MaxBlocks else |latestBlockFees.value|
    ensures latestBlockFees.Some? ==>
      forall i :: 0 <= i < |rows| ==> rows[i] == RenderRow(fmt, unit, ToPartial(latestBlockFees.value[i]), i)
  {
    RenderRows(fmt, unit, DisplayedBlocks(latestBlockFees), 0)
  }

  /** Before loading: exactly `MaxBlocks` rows, keyed by position, with no link and no values. */
  lemma SkeletonRows(fmt: Formatters, unit: Unit)
    ensures |LatestBlocksRows(fmt, unit, None)| == MaxBlocks
    ensures forall i :: 0 <= i < MaxBlocks ==>
      LatestBlocksRows(fmt, unit, None)[i] == Row(i, None, None, None, UnitLabel(unit))
  {
  }

  /** After loading: one row per block in the same order, no padding or truncation, each showing that block. */
  lemma LoadedRows(fmt: Formatters, unit: Unit, blocks: seq<LatestBlock>)
    ensures |LatestBlocksRows(fmt, unit, Some(blocks))| == |blocks|
    ensures forall i :: 0 <= i < |blocks| ==>
      && LatestBlocksRows(fmt, unit, Some(blocks))[i].key == (if blocks[i].number != 0 then blocks[i].number else i)
      && LatestBlocksRows(fmt, unit, Some(blocks))[i].href == Some(EtherscanBlockPrefix + Decimal.Show(blocks[i].number))
      && LatestBlocksRows(fmt, unit, Some(blocks))[i].baseFee == FormatGas(fmt, blocks[i].baseFeePerGas)
      && LatestBlocksRows(fmt, unit, Some(blocks))[i].fees == FormatFees(fmt, unit, blocks[i].fees, blocks[i].feesUsd)
  {
  }

  /** Loaded blocks with distinct non-zero numbers get distinct keys. */
  lemma LoadedKeysDistinct(fmt: Formatters, unit: Unit, blocks: seq<LatestBlock>, i: nat, j: nat)
    requires i < j < |blocks|
    requires blocks[i].number != 0 && blocks[j].number != 0
    requires blocks[i].number != blocks[j].number
    ensures LatestBlocksRows(fmt, unit, Some(blocks))[i].key != LatestBlocksRows(fmt, unit, Some(blocks))[j].key
  {
  }

  /** A block numbered 0 at position `k` gets the key of a block numbered `k`, wherever that block stands. */
  lemma ZeroNumberKeyIsIndex(k: nat, j: nat)
    requires k != 0
    ensures RowKey(Some(0), k) == RowKey(Some(k), j) == k
  {
  }

  /** Without the non-zero condition keys can clash: block 0 falls back to its index. */
  lemma ZeroNumberKeyMayClash(fmt: Formatters, unit: Unit)
    ensures var rows := LatestBlocksRows(fmt, unit, Some([
      LatestBlock(1, 12, None, None, None), LatestBlock(0, 0, None, None, None)]));
      rows[0].key == rows[1].key == 1
  {
  }
}
