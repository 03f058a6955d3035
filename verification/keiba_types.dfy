/** The plain data exchanged between the calculator, the text importers and their callers. */
module KeibaTypes {
  import opened Wrappers

  /** The eight bet types: 単勝, 複勝, 枠連, 馬連, ワイド, 馬単, 3連複, 3連単. */
  datatype BetType = Tansho | Fukusho | Wakuren | Umaren | Wide | Umatan | Sanrenpuku | Sanrentan

  /** Purchase methods: 通常, ながし, BOX, フォーメーション. */
  datatype PurchaseMethod = Regular | Nagashi | Box | Formation

  /** Where the axis horse of a ながし ticket finishes: 1着, 2着, 3着 or 軸. */
  datatype AxisPosition = AxisFirst | AxisSecond | AxisThird | AxisAny

  /** The string that identifies each bet type. */
  function Label(b: BetType): string {
    match b
    case Tansho => "単勝"
    case Fukusho => "複勝"
    case Wakuren => "枠連"
    case Umaren => "馬連"
    case Wide => "ワイド"
    case Umatan => "馬単"
    case Sanrenpuku => "3連複"
    case Sanrentan => "3連単"
  }

  /** One wagered combination of horse numbers, with optional odds. */
  datatype Selection = Selection(horses: seq<int>, odds: Option<real>)

  datatype NagashiSelection = NagashiSelection(axis: seq<int>, partner: seq<int>, axisPosition: Option<AxisPosition>)

  datatype FormationSelection = FormationSelection(first: seq<int>, second: seq<int>, third: Option<seq<int>>)

  /** A posted race result; `dividend` is the payout per 100 yen. */
  datatype BetResult = BetResult(first: int, second: int, third: Option<int>, dividend: Option<real>)

  /** What every combination generator returns. */
  datatype TicketSet = TicketSet(count: int, selections: seq<Selection>)

  datatype Horse = Horse(number: int, name: Option<string>, frameNumber: Option<int>, jockey: Option<string>)

  /** Wraps generated horse tuples as selections without odds. */
  function Tickets(ts: seq<seq<int>>): (r: TicketSet)
    ensures r.count == |r.selections| == |ts|
    ensures forall k :: 0 <= k < |ts| ==> r.selections[k] == Selection(ts[k], None)
  {
    TicketSet(|ts|, seq(|ts|, k requires 0 <= k < |ts| => Selection(ts[k], None)))
  }

  /** The horses of a tuple as a bag: unordered bets identify tuples with equal bags. */
  function Bag(t: seq<int>): multiset<int> {
    multiset(t)
  }

  /** The horse tuples of a list of selections. */
  function HorsesOf(ss: seq<Selection>): (ts: seq<seq<int>>)
    ensures |ts| == |ss|
    ensures forall k :: 0 <= k < |ss| ==> ts[k] == ss[k].horses
  {
    seq(|ss|, k requires 0 <= k < |ss| => ss[k].horses)
  }
}
