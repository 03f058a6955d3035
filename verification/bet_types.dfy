/** The bet-type catalogue and the questions callers ask of it. */
module BetTypes {
  import opened KeibaTypes
  import opened Seqs

  datatype BetTypeInfo = BetTypeInfo(
    name: string, displayName: string, minHorses: nat, maxHorses: nat, positions: nat, description: string)

  /** The `BET_TYPES` table. */
  function Info(b: BetType): (r: BetTypeInfo)
    ensures r.name == r.displayName == Label(b)
    ensures 1 <= r.positions <= 3
    ensures r.minHorses == r.positions
    ensures r.maxHorses == if b == Wakuren then 8 else 18
  {
    match b
    case Tansho => BetTypeInfo(Label(b), Label(b), 1, 18, 1, "1着になる馬を当てる")
    case Fukusho => BetTypeInfo(Label(b), Label(b), 1, 18, 1, "3着以内に入る馬を当てる")
    case Wakuren => BetTypeInfo(Label(b), Label(b), 2, 8, 2, "1着・2着の枠番を当てる（順不同）")
    case Umaren => BetTypeInfo(Label(b), Label(b), 2, 18, 2, "1着・2着の馬を当てる（順不同）")
    case Wide => BetTypeInfo(Label(b), Label(b), 2, 18, 2, "3着以内に入る2頭を当てる（順不同）")
    case Umatan => BetTypeInfo(Label(b), Label(b), 2, 18, 2, "1着・2着の馬を着順通りに当てる")
    case Sanrenpuku => BetTypeInfo(Label(b), Label(b), 3, 18, 3, "1着・2着・3着の馬を当てる（順不同）")
    case Sanrentan => BetTypeInfo(Label(b), Label(b), 3, 18, 3, "1着・2着・3着の馬を着順通りに当てる")
  }

  function Positions(b: BetType): (n: nat)
    ensures n == Info(b).positions
  {
    Info(b).positions
  }

  predicate IsOrderedBet(b: BetType) {
    b == Umatan || b == Sanrentan
  }

  predicate IsTripleBet(b: BetType) {
    b == Sanrenpuku || b == Sanrentan
  }

  predicate IsSingleBet(b: BetType) {
    b == Tansho || b == Fukusho
  }

  predicate IsFrameBet(b: BetType) {
    b == Wakuren
  }

  predicate IsPurchaseMethodAvailable(b: BetType, m: PurchaseMethod) {
    if IsSingleBet(b) then m == Regular else true
  }

  /** Combination identity: ordered types compare tuples, unordered types compare the bags of
      horses, so a generated list must not hold two tuples that are the same combination. */
  predicate NoRepeatedCombination(b: BetType, ts: seq<seq<int>>) {
    if IsOrderedBet(b) then NoDup(ts) else NoDupBy(ts, Bag)
  }

  /** The catalogue's position counts: 1 for 単勝/複勝, 2 for the pair bets, 3 for 3連複/3連単,
      and the classification predicates agree with them. */
  lemma PositionsByType(b: BetType)
    ensures Positions(b) == 1 <==> b in {Tansho, Fukusho}
    ensures Positions(b) == 2 <==> b in {Wakuren, Umaren, Wide, Umatan}
    ensures Positions(b) == 3 <==> b in {Sanrenpuku, Sanrentan}
    ensures IsTripleBet(b) <==> Positions(b) == 3
    ensures IsSingleBet(b) <==> Positions(b) == 1
  {
  }

  /** Order matters for exactly one pair bet and one triple bet, and never for a single bet. */
  lemma OrderedBets(b: BetType)
    ensures IsOrderedBet(b) <==> b == Umatan || b == Sanrentan
    ensures IsOrderedBet(b) ==> Positions(b) >= 2
    ensures Positions(b) == 2 ==> (IsOrderedBet(b) <==> b == Umatan)
    ensures Positions(b) == 3 ==> (IsOrderedBet(b) <==> b == Sanrentan)
  {
  }

  /** Single bets are bought only as 通常; every other type allows all four methods. */
  lemma PurchaseMethods(b: BetType, m: PurchaseMethod)
    ensures IsPurchaseMethodAvailable(b, m) <==> Positions(b) > 1 || m == Regular
  {
  }

  /** 枠連 is the only frame bet, and the only type limited to 8 selections. */
  lemma FrameBet(b: BetType)
    ensures IsFrameBet(b) <==> b == Wakuren
    ensures IsFrameBet(b) <==> Info(b).maxHorses == 8
  {
  }

  /** Distinct types carry distinct names. */
  lemma NamesDistinct(a: BetType, b: BetType)
    ensures Info(a).name == Info(b).name ==> a == b
  {
  }
}
