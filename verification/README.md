# keiba-calculator betting core in Dafny

This project models the betting core of keiba-calculator, a calculator for Japanese horse-race
betting (JRA 馬券).

The calculator part covers:

- the bet-type catalogue: 単勝, 複勝, 枠連, 馬連, ワイド, 馬単, 3連複 and 3連単;
- ticket generation for the BOX, ながし (axis/partner) and フォーメーション (position lists)
  purchase methods;
- expected and actual payouts, and the hit check against a race result;
- the refund of tickets that contain a scratched horse.

The importer part covers three readers for text copied from the 即PAT site:

- the odds list;
- the voting history;
- the race card (出馬表).

The close-frame sanitizers of the repository's WebSocket helper are modelled too: the close
code, and the close reason limited to 123 UTF-8 bytes.

Modules follow the source files:

- `KeibaTypes` holds the data of `types.ts`.
- `BetTypes` covers `betTypes.ts`.
- `Combinatorics`, `BoxTickets`, `NagashiTickets` and `FormationTickets` cover `combinations.ts`.
- `Payout` covers `payout.ts` and `Refund` covers `refund.ts`.
- `OddsParser` and `OddsProperties` cover `ipat/oddsParser.ts`.
- `HistoryParser` covers `ipat/historyParser.ts`.
- `RaceLines` and `RaceInfoParser` cover `ipat/raceInfoParser.ts`. `RaceLines` is the race-line
  pattern that the race-card reader shares with the history reader.
- `WebSocketClose` covers `src/utils/websocket.ts`.

Some modules model the JavaScript built-ins the source relies on:

- `JsText`: whitespace, `trim`, `split`, the line splitting both importers do, and `includes`;
- `JsNumbers`: `parseInt` and `parseFloat` on digit strings, and `replace(/,/g, '')`;
- `NumberKeys`: `String(n)` and `join('-')`;
- `NumberChain`: the `\d+(?:\s*[-→＝]\s*\d+)*` horse-number chains and their separator
  replacement;
- `BetKeywords`: the `betTypeMap` keyword search.

`Seqs`, `Sorting` and `Wrappers` are generic sequence and `Option` helpers.

Each regular expression is written out as a function that returns exactly the match the
JavaScript engine's backtracking finds: the leftmost start, and the greedy or lazy choice at
each quantifier. The three readers, `OddsParser.ParseOddsText`, `HistoryParser.ParseHistoryText`
and `RaceInfoParser.ParseRaceInfoText`, apply these patterns in the order and form the source
uses. Round-trip lemmas then show that a line written in the documented layout is read back as
its parts.

Two entry points are not what the source does. `OddsParser.ParseOddsTextCorrected` tries the
tab pattern before pattern 1, and `RaceInfoParser.ParseRaceInfoTextCorrected` reads a two-digit
race number whole. They model the evident intent behind two of the findings below. Lemmas about
the corrected readings say so in their names or in the table.

The close-reason decoder is a concrete UTF-8 decoder. It follows the decoder algorithm of
section 8.1.1 of the WHATWG Encoding Standard, which is what `TextDecoder('utf-8')` runs. Each
bad or cut-short sequence becomes U+FFFD, and a leading byte-order mark is stripped.

## Model

| member | source | states |
|---|---|---|
| BetTypes.Info | keiba-calculator/src/lib/calculator/betTypes.ts:3-19 | Each catalogue entry's name and display name are the type's label, it has 1 to 3 positions, its minimum horse count equals its positions, and its maximum is 8 for 枠連 and 18 otherwise. |
| BetTypes.PositionsByType | keiba-calculator/src/lib/calculator/betTypes.ts:11-31 | 単勝/複勝 have one position, the four pair bets two, 3連複/3連単 three. `isTripleBet` holds exactly for three positions and `isSingleBet` exactly for one. |
| BetTypes.OrderedBets | keiba-calculator/src/lib/calculator/betTypes.ts:21-23 | Order matters exactly for 馬単 and 3連単: the one ordered pair bet and the one ordered triple bet. No single bet is ordered. |
| BetTypes.PurchaseMethods | keiba-calculator/src/lib/calculator/betTypes.ts:37-40 | A purchase method is available iff the type has more than one position or the method is 通常. |
| BetTypes.FrameBet | keiba-calculator/src/lib/calculator/betTypes.ts:33-35 | 枠連 is the only frame bet, and the only type whose maximum is 8. |
| BetTypes.NamesDistinct | keiba-calculator/src/lib/calculator/betTypes.ts:11-18 | Different bet types have different names. |
| Combinatorics.SmallFactorials | keiba-calculator/src/lib/calculator/combinations.ts:14-21 | The `permutation` product for r = 1, 2, 3 is n, n(n-1) and n(n-1)(n-2), and 1!, 2!, 3! are 1, 2, 6. |
| Combinatorics.ChooseOne | keiba-calculator/src/lib/calculator/combinations.ts:3-21 | One of n can be chosen n ways, ordered or not. |
| Combinatorics.ChooseTwo | keiba-calculator/src/lib/calculator/combinations.ts:3-21 | Two of n: n(n-1) ordered choices, and half of that unordered. |
| Combinatorics.ChooseThree | keiba-calculator/src/lib/calculator/combinations.ts:3-21 | Three of n: n(n-1)(n-2) ordered choices, and a sixth of that unordered. |
| BoxTickets.UnorderedPairsMember | keiba-calculator/src/lib/calculator/combinations.ts:35-42 | The i<j loop yields exactly the pairs `[h[i], h[j]]` with i < j. |
| BoxTickets.OrderedPairsMember | keiba-calculator/src/lib/calculator/combinations.ts:44-51 | The 馬単 loop yields exactly the pairs `[h[i], h[j]]` with i ≠ j. |
| BoxTickets.TriosMember | keiba-calculator/src/lib/calculator/combinations.ts:53-62 | The 3連複 loop yields exactly the triples `[h[i], h[j], h[k]]` with i < j < k. |
| BoxTickets.TrifectasMember | keiba-calculator/src/lib/calculator/combinations.ts:64-77 | The 3連単 loop yields exactly the triples of three different indices. |
| BoxTickets.BoxTuplesCount | keiba-calculator/src/lib/calculator/combinations.ts:24-80 | The ticket count is C(n, positions) for unordered types and P(n, positions) for ordered ones, where n is the number of horses picked. |
| BoxTickets.BoxTuplesMember | keiba-calculator/src/lib/calculator/combinations.ts:24-80 | A tuple is generated iff it picks horses at different indices, in increasing index order for unordered types. |
| BoxTickets.BoxTuplesDistinct | keiba-calculator/src/lib/calculator/combinations.ts:24-80 | When the picked horses are distinct, no combination is generated twice. Ordered types compare tuples and unordered types compare horse bags. |
| BoxTickets.BoxTuplesFacts | keiba-calculator/src/lib/calculator/combinations.ts:24-80 | The count, the membership iff, tuple length = positions, distinct horses per tuple, and no repeated combination, all together. |
| BoxTickets.CalculateBoxTickets | keiba-calculator/src/lib/calculator/combinations.ts:24-80 | `count` equals the number of selections and the C/P formula. The tickets are exactly the box tuples, each with `positions` horses and no odds. Distinct picks give distinct horses and no repeated combination. |
| BoxTickets.BoxScenarios | keiba-calculator/src/lib/calculator/combinations.ts:35-42 | BOX 馬連 over 1, 2, 3 gives [1,2], [1,3], [2,3], and over 3, 1 keeps the given order [3,1]. |
| BoxTickets.BoxCountScenario | keiba-calculator/src/lib/calculator/combinations.ts:64-77 | BOX 3連単 over three horses has 6 tickets. |
| NagashiTickets.NagashiTuplesCount | keiba-calculator/src/lib/calculator/combinations.ts:83-143 | The count is axes × partners for pair bets, axes × C(partners, 2) for 3連複, axes × P(partners, 2) for 3連単, and 0 for single bets. |
| NagashiTickets.PlaceSlot | keiba-calculator/src/lib/calculator/combinations.ts:128-134 | The 3連単 triple built from an axis and partners x, y is exactly the one with the axis in its slot (first for 1着, second for 2着, last otherwise) and x, y in the other two slots, in order. |
| NagashiTickets.NagashiTuplesMember | keiba-calculator/src/lib/calculator/combinations.ts:83-143 | A tuple is generated iff it is an axis horse placed with partners as the bet type says: a min/max pair, an axis-first or partner-first 馬単 pair, an ascending-sorted trio, or a 3連単 with the axis in its slot. |
| NagashiTickets.WithAxisShape | keiba-calculator/src/lib/calculator/combinations.ts:89-140 | Every generated tuple has `positions` horses, and unordered pairs and trios are in ascending order. |
| NagashiTickets.WithAxisNoDup | keiba-calculator/src/lib/calculator/combinations.ts:89-140 | For a well-formed selection (distinct axes, distinct partners, no horse in both lists), every tuple built around an axis horse has distinct horses. |
| NagashiTickets.NagashiTuplesDistinct | keiba-calculator/src/lib/calculator/combinations.ts:83-143 | With distinct axes, distinct partners, and no horse in both lists, no combination is generated twice. |
| NagashiTickets.NagashiTuplesFacts | keiba-calculator/src/lib/calculator/combinations.ts:83-143 | The count formula, the membership iff, the tuple shape, and no repetition for well-formed selections, together. |
| NagashiTickets.CalculateNagashiTickets | keiba-calculator/src/lib/calculator/combinations.ts:83-143 | `count` equals the number of selections and the formula. The tickets are exactly the axis/partner tuples. Each tuple has the bet's shape and no odds. Well-formed selections repeat no combination. |
| NagashiTickets.NagashiScenarios | keiba-calculator/src/lib/calculator/combinations.ts:89-108 | 馬連 with axis 3 and partners 1, 5 gives [1,3], [3,5]. 馬単 with the axis second gives [2,1], [3,1]. |
| NagashiTickets.NagashiTrifectaScenario | keiba-calculator/src/lib/calculator/combinations.ts:122-138 | 3連単 with axis 1 placed first and partners 2, 3, 4 gives the six tickets [1,2,3], [1,2,4], [1,3,2], [1,3,4], [1,4,2], [1,4,3], in loop order. |
| FormationTickets.StringKeysAgree | keiba-calculator/src/lib/calculator/combinations.ts:157-205 | Dedup on the source's `join('-')` string keys keeps exactly the tuples that dedup on the tuples themselves keeps, because the join is injective. |
| FormationTickets.DedupFacts | keiba-calculator/src/lib/calculator/combinations.ts:151-163 | The seen-set pass keeps every candidate not already seen, and keeps it exactly once. |
| FormationTickets.DedupOrder | keiba-calculator/src/lib/calculator/combinations.ts:151-163 | The kept candidates come out in the order of their first occurrences: whatever precedes a kept tuple occurs among the candidates before every occurrence of it. |
| FormationTickets.CandidatesMember | keiba-calculator/src/lib/calculator/combinations.ts:153-215 | A candidate is produced iff it takes one horse from each position list with all horses different: a min/max pair, an ordered pair, an ascending-sorted trio, or an ordered triple. |
| FormationTickets.InFormationShape | keiba-calculator/src/lib/calculator/combinations.ts:153-215 | Every formation tuple has `positions` distinct horses, in ascending order for unordered types. |
| FormationTickets.FormationTuplesFacts | keiba-calculator/src/lib/calculator/combinations.ts:146-218 | At most the product of the list lengths, the membership iff, the shape, no repeated combination, and the tickets in the order the loops first reach them. |
| FormationTickets.CalculateFormationTickets | keiba-calculator/src/lib/calculator/combinations.ts:146-218 | `count` is the number of selections and at most the lists' product. The tickets are exactly the formation choices, once each, with no odds. Single bets, and triple bets with a missing or empty third list, give none. |
| FormationTickets.FormationScenarios | keiba-calculator/src/lib/calculator/combinations.ts:168-198 | 馬単 over lists [1,2] and [1,2] gives [1,2], [2,1]. 3連複 without a third list gives nothing. |
| NumberKeys.JoinKeyInjective | keiba-calculator/src/lib/calculator/combinations.ts:157 | Two integer tuples with equal `join('-')` keys are equal, negative numbers included. |
| NumberKeys.DecimalInjective | keiba-calculator/src/lib/calculator/combinations.ts:157 | `String(n)` is injective on naturals. |
| NumberKeys.KeyScenarios | keiba-calculator/src/lib/calculator/combinations.ts:157-205 | [1,12] keys as "1-12", [3,10,7] as "3-10-7", and -4 prints as "-4". |
| Payout.ReturnRate | keiba-calculator/src/lib/calculator/payout.ts:18 | The rate is 0 without cost, and otherwise is the percentage the payout makes of the cost. |
| Payout.TicketPayout | keiba-calculator/src/lib/calculator/payout.ts:13-15 | A ticket's payout is a multiple of 100, and 0 when it has no odds, or odds 0. |
| Payout.TicketPayoutBounds | keiba-calculator/src/lib/calculator/payout.ts:14 | The payout is the largest multiple of 100 not above odds × unit. |
| Payout.SumPayoutAppend | keiba-calculator/src/lib/calculator/payout.ts:11-16 | The expected payout of two lists of selections is the sum of theirs. |
| Payout.SumPayoutOnlyOdds | keiba-calculator/src/lib/calculator/payout.ts:13 | Selections without odds contribute nothing: dropping them leaves the total unchanged. |
| Payout.CalculateExpectedPayout | keiba-calculator/src/lib/calculator/payout.ts:5-21 | The total cost is count × unit. The total payout is the sum of the rounded-down ticket payouts and a multiple of 100. The rate is the return rate of the two. |
| Payout.PositionalHits | keiba-calculator/src/lib/calculator/payout.ts:32-33 | A 単勝 ticket hits iff its horse won. A 馬単 ticket hits iff its pair is first and second in order. A 3連単 ticket hits iff its triple is the first three in order. Without a third place no 3連複/3連単 ticket hits. |
| Payout.PlaceHit | keiba-calculator/src/lib/calculator/payout.ts:35-38 | A 複勝 ticket hits iff its horse is among the placed horses. |
| Payout.QuinellaHit | keiba-calculator/src/lib/calculator/payout.ts:40-53 | A 枠連/馬連 ticket of two horses hits iff its horses, as a bag, are the first and second. |
| Payout.WideHit | keiba-calculator/src/lib/calculator/payout.ts:42-50 | A ワイド ticket hits iff both its horses are among the top three (top two when no third is posted). |
| Payout.TrioHit | keiba-calculator/src/lib/calculator/payout.ts:58-65 | A 3連複 ticket of three horses hits iff its bag is the bag of the first three. |
| Payout.UnorderedHitIgnoresOrder | keiba-calculator/src/lib/calculator/payout.ts:40-65 | For 枠連, 馬連, ワイド and 3連複, two selections with the same horses in any order hit alike. |
| Payout.PayoutPerHitBounds | keiba-calculator/src/lib/calculator/payout.ts:95 | The per-hit payout is the largest multiple of 100 not above dividend × unit / 100. |
| Payout.HitTickets | keiba-calculator/src/lib/calculator/payout.ts:86-92 | The hit tickets are the selections that hit, in order. |
| Payout.CalculateActualResult | keiba-calculator/src/lib/calculator/payout.ts:79-109 | The count and cost come from the number of selections. The hit tickets are exactly the hits. The payout is 0 without a dividend and otherwise hits × per-hit payout, a multiple of 100. Profit is payout minus cost, and the return is their rate. |
| Payout.ExpectedScenario | keiba-calculator/src/lib/calculator/payout.ts:14 | Odds 3.5 on 100 yen pay 300. |
| Payout.TrifectaScenario | keiba-calculator/src/lib/calculator/payout.ts:67-68 | A 3連単 ticket does not hit when no third place is posted. |
| Payout.QuinellaScenario | keiba-calculator/src/lib/calculator/payout.ts:40-53 | 馬連 [5,2] hits a 2-5 finish. |
| Payout.WideScenario | keiba-calculator/src/lib/calculator/payout.ts:46-49 | ワイド [1,7] hits a 7-3-1 finish. |
| Refund.SplitTickets | keiba-calculator/src/lib/calculator/refund.ts:19-26 | Refunded tickets are the selections that contain a scratched horse, and valid tickets are the others, each in order. |
| Refund.ProcessRefund | keiba-calculator/src/lib/calculator/refund.ts:4-35 | The two lists partition the selections: refunded ones contain a scratched horse and valid ones do not. The refund count is the refunded list's length, and the refund amount and new cost are counts × unit. Refund plus new cost is the old cost. With no scratched horse nothing is refunded. |
| Refund.SplitFacts | keiba-calculator/src/lib/calculator/refund.ts:19-26 | The split loses and invents no selection, and the two lengths add up. |
| Refund.RefundScenario | keiba-calculator/src/lib/calculator/refund.ts:20 | With horse 3 scratched, [1,3] is refunded and [1,2] is not. |
| JsText.TrimIdempotent | keiba-calculator/src/lib/ipat/oddsParser.ts:10 | Trimming a trimmed line changes nothing. |
| JsText.SplitJoin | keiba-calculator/src/lib/ipat/oddsParser.ts:10 | Joining the parts of `split(c)` with `c` gives back the text. |
| JsText.Lines | keiba-calculator/src/lib/ipat/oddsParser.ts:10 | Every line the importers look at is trimmed and not empty. |
| JsNumbers.DecimalParses | keiba-calculator/src/lib/ipat/historyParser.ts:41 | `parseInt` and `parseFloat` read `String(n)` back as n. |
| JsNumbers.ParseFloatBounds | keiba-calculator/src/lib/ipat/oddsParser.ts:38 | `parseFloat` of a digits-and-points group lies between its whole part and the next integer. |
| JsNumbers.RemoveCommasEmpty | keiba-calculator/src/lib/ipat/oddsParser.ts:38 | Removing commas leaves nothing iff the group was all commas. |
| NumberChain.ReplaceChain | keiba-calculator/src/lib/ipat/oddsParser.ts:37 | Replacing each separator (with its spaces) in a written-out horse chain by `-` gives the join of its horse numbers. |
| NumberChain.ChainAtText | keiba-calculator/src/lib/ipat/oddsParser.ts:35 | The chain pattern reads exactly the written-out chain when what follows starts no further link. |
| BetKeywords.LineBetTypeFirst | keiba-calculator/src/lib/ipat/oddsParser.ts:23-28 | A line names no bet type iff it contains no keyword. Otherwise it names the type of the first keyword in table order that it contains. |
| BetKeywords.LastGiven | keiba-calculator/src/lib/ipat/oddsParser.ts:22-29 | The overwriting loop leaves none iff no line gives a value, and otherwise the value of a line after which no line gives one. |
| BetKeywords.LabelsDetectedPairs | keiba-calculator/src/lib/ipat/oddsParser.ts:15-20 | A line holding 単勝, 複勝, 枠連 or 馬連 is detected as that type. |
| BetKeywords.LabelsDetectedWideUmatan | keiba-calculator/src/lib/ipat/oddsParser.ts:15-20 | A line holding ワイド or 馬単 is detected as that type. |
| BetKeywords.LabelsDetectedSanrenpuku | keiba-calculator/src/lib/ipat/oddsParser.ts:18 | Lines holding 三連複 or 3連複 are detected as 3連複. |
| BetKeywords.LabelsDetectedSanrentan | keiba-calculator/src/lib/ipat/oddsParser.ts:19 | Lines holding 三連単 or 3連単 are detected as 3連単. |
| OddsParser.ChainPattern | keiba-calculator/src/lib/ipat/oddsParser.ts:35 | A pattern 1 match has a key end, a value start, and a value group of digits, commas and at most one point. |
| OddsParser.TabPattern | keiba-calculator/src/lib/ipat/oddsParser.ts:46 | A tab-pattern match is well formed in the same sense, its key being tab-separated numbers. |
| OddsParser.ParseOddsText | keiba-calculator/src/lib/ipat/oddsParser.ts:9-58 | Pattern 1 is tried before the tab pattern, as written. The bet type is missing iff no line names one. Every odds entry comes from some line of the text. |
| OddsParser.CollectAppend | keiba-calculator/src/lib/ipat/oddsParser.ts:33-55 | Collecting the entries of two runs of lines gives the first run's entries followed by the second's. |
| OddsParser.CollectAt | keiba-calculator/src/lib/ipat/oddsParser.ts:33-55 | Every line that gives an entry has it in the result, right after the entries of the lines before it. |
| OddsParser.ParseOddsTextComplete | keiba-calculator/src/lib/ipat/oddsParser.ts:33-55 | Each line that gives an entry, read as written, has its entry in the result, at the position after the entries of the earlier lines. No entry is dropped and the text's order is kept. |
| OddsParser.ParseOddsTextCorrected | keiba-calculator/src/lib/ipat/oddsParser.ts:32-54 | With the tab pattern tried first: the same bet type as the reader as written, and every entry comes from some line. |
| OddsParser.ParseOddsTextCorrectedComplete | keiba-calculator/src/lib/ipat/oddsParser.ts:33-55 | The corrected reader keeps every line's entry too, in the order of the text. |
| OddsProperties.OddsTextReads | keiba-calculator/src/lib/ipat/oddsParser.ts:38 | Odds written as `a.f` are read as the exact decimal a.f. |
| OddsProperties.ChainRoundTrip | keiba-calculator/src/lib/ipat/oddsParser.ts:34-43 | A line `h0 sep h1 … gap odds` is read, as written and corrected alike, as key "h0-h1-…" and the odds' value. |
| OddsProperties.ChainLineNotTab | keiba-calculator/src/lib/ipat/oddsParser.ts:46 | The tab pattern does not match a separator-written line, so the two readers agree on it. |
| OddsProperties.TabBranchUnreachable | keiba-calculator/src/lib/ipat/oddsParser.ts:35-54 | Whenever the tab pattern matches, pattern 1 matches first and takes the first number as the key: the tab branch never runs. |
| OddsProperties.TabLineMisread | keiba-calculator/src/lib/ipat/oddsParser.ts:35-43 | As written, a tab line of two or more horses is read as the first horse with the second horse's number as its odds. |
| OddsProperties.TabScenarioAsWritten | keiba-calculator/src/lib/ipat/oddsParser.ts:32-54 | As written, "1\t2\t15.3" gives key "1" and odds 2. |
| OddsProperties.TabRoundTrip | keiba-calculator/src/lib/ipat/oddsParser.ts:45-54 | With the tab pattern tried first, a tab line of horses and odds is read as key "h0-…-hn" and the odds. |
| OddsProperties.LoneNumberTab | keiba-calculator/src/lib/ipat/oddsParser.ts:32-34 | A single horse and its odds, tab-separated, are read correctly. |
| OddsProperties.TabScenarioCorrected | keiba-calculator/src/lib/ipat/oddsParser.ts:32-54 | Corrected, "1\t2\t15.3" gives key "1-2" and odds 15.3. |
| OddsProperties.OddsToMapKeys | keiba-calculator/src/lib/ipat/oddsParser.ts:61-67 | The map's keys are exactly the entries' keys. |
| OddsProperties.OddsToMapLast | keiba-calculator/src/lib/ipat/oddsParser.ts:63-65 | A key maps to the value of its last entry. |
| RaceLines.NumberR | keiba-calculator/src/lib/ipat/raceInfoParser.ts:12 | `(\d{1,2})R` matches at j iff a digit stands there followed by `R`, or two digits followed by `R`. The match takes two digits when it can. |
| RaceLines.RaceSearch | keiba-calculator/src/lib/ipat/raceInfoParser.ts:12 | The match is at the first start where the race pattern matches. |
| RaceLines.RaceLineIff | keiba-calculator/src/lib/ipat/raceInfoParser.ts:12 | A line is a race line iff it holds a digit directly followed by `R`, under either reading of group 1. |
| RaceLines.RaceRoundTrip | keiba-calculator/src/lib/ipat/raceInfoParser.ts:12-17 | `venue n R name`, with a digit-free venue, is read back as that venue, number and name. |
| RaceLines.RaceRoundTripNoVenue | keiba-calculator/src/lib/ipat/raceInfoParser.ts:12-17 | `nR name` without a venue is read back with no venue, for any two-digit number under the corrected reading. |
| RaceLines.RaceRoundTripSplit | keiba-calculator/src/lib/ipat/raceInfoParser.ts:12-17 | As written, `nR name` without a venue and with a two-digit n is read with the first digit as the venue, the second as the race number, and the name intact. |
| RaceLines.LabelRoundTrip | keiba-calculator/src/lib/ipat/historyParser.ts:20-25 | The race label the history reader builds from a written-out race line is the line itself, under either reading, with or without a venue, for any race number below 100. |
| RaceLines.SplitNumberAsWritten | keiba-calculator/src/lib/ipat/raceInfoParser.ts:12 | As written, "11R" matches with venue "1" and race number "1". |
| RaceLines.SplitNumberWhole | keiba-calculator/src/lib/ipat/raceInfoParser.ts:12 | Corrected, "11R" matches with no venue and race number "11". |
| RaceInfoParser.CardLineFirst | keiba-calculator/src/lib/ipat/raceInfoParser.ts:22 | The card pattern matches at no start before the reported one, and nowhere when none is reported. |
| RaceInfoParser.CardTextRead | keiba-calculator/src/lib/ipat/raceInfoParser.ts:22-27 | A card line `frame number name jockey` is read as its four parts. |
| RaceInfoParser.AddedCard | keiba-calculator/src/lib/ipat/raceInfoParser.ts:29-31 | A card match with number 1-18 and frame 1-8 is pushed as read. |
| RaceInfoParser.CardLineNotShort | keiba-calculator/src/lib/ipat/raceInfoParser.ts:22-47 | A line whose card match starts at its first character and is rejected for its range adds no horse, because the short pattern would read a digit as the name. |
| RaceInfoParser.ShortLayoutRead | keiba-calculator/src/lib/ipat/raceInfoParser.ts:37-40 | `number name` is read by the short pattern as its number and name, and the card pattern does not match it. |
| RaceInfoParser.AddedShort | keiba-calculator/src/lib/ipat/raceInfoParser.ts:37-46 | Without a card match, a short match is pushed iff its number is 1-18, its name does not start with a digit, and no horse with that number was pushed before. |
| RaceInfoParser.ShortRoundTrip | keiba-calculator/src/lib/ipat/raceInfoParser.ts:37-46 | A short line adds its horse iff its number is new. |
| RaceInfoParser.Collect | keiba-calculator/src/lib/ipat/raceInfoParser.ts:19-48 | At most one horse per line is pushed, and every pushed horse has a number 1-18 (and a frame 1-8 when it has one). |
| RaceInfoParser.ShortNumbersNew | keiba-calculator/src/lib/ipat/raceInfoParser.ts:43-44 | A horse read in the short layout never repeats the number of a horse pushed before it. |
| RaceInfoParser.CollectCards | keiba-calculator/src/lib/ipat/raceInfoParser.ts:19-33 | After a first line that adds no horse, written-out card lines read back as exactly their horses, in order. |
| RaceInfoParser.ParseLines | keiba-calculator/src/lib/ipat/raceInfoParser.ts:4-54 | The result's horses are sorted by number and are a permutation of the horses the loop pushed. |
| RaceInfoParser.ParseRaceInfoText | keiba-calculator/src/lib/ipat/raceInfoParser.ts:4-54 | With the race pattern as written: the horses are sorted by number and are a permutation of those the lines push. There is a race number iff the first line matches the race pattern. |
| RaceInfoParser.ParseRaceInfoTextCorrected | keiba-calculator/src/lib/ipat/raceInfoParser.ts:4-54 | With a two-digit race number read whole: the same horses as the reader as written. There is a race number iff the first line matches the corrected race pattern. |
| RaceInfoParser.ParseRoundTrip | keiba-calculator/src/lib/ipat/raceInfoParser.ts:4-54 | A race line followed by card lines is read back as its venue, race number, race name, and horses (as a bag), for a race line that has a venue free of digits and whitespace and a race name with no digit (a digit in the name could form a card match). |
| RaceInfoParser.CardLinesRepeat | keiba-calculator/src/lib/ipat/raceInfoParser.ts:29-31 | Card lines are not deduplicated: a repeated card line pushes its horse twice. |
| RaceInfoParser.ShortLinesRepeat | keiba-calculator/src/lib/ipat/raceInfoParser.ts:43-44 | A second short line with a taken number is left out. |
| RaceInfoParser.RaceNumberReadings | keiba-calculator/src/lib/ipat/raceInfoParser.ts:12-16 | As written, a first line "11R" gives venue "1" and race 1. Corrected, it gives no venue and race 11. |
| HistoryParser.BetSearch | keiba-calculator/src/lib/ipat/historyParser.ts:38 | The bet pattern's match is well formed and at the first start where it matches. |
| HistoryParser.StepState | keiba-calculator/src/lib/ipat/historyParser.ts:18-49 | One iteration sets the race a race line names and the bet type a line names, and adds at most one record. |
| HistoryParser.History | keiba-calculator/src/lib/ipat/historyParser.ts:15-50 | After the loop, the current race is the label of the last race line (or ''), and the bet type is the one the last line naming a type named. |
| HistoryParser.HistoryRecords | keiba-calculator/src/lib/ipat/historyParser.ts:18-50 | The records are, in order, those of the bet lines that are not race lines and come once a bet type has been named, each with the race and bet type in force at that line. |
| HistoryParser.ParseHistoryText | keiba-calculator/src/lib/ipat/historyParser.ts:15-50 | The records are those the lines yield one by one: a bet line that is not a race line gives a record once a bet type has been named, with the race in force. There are no more records than lines. |
| HistoryParser.NoBetTypeNoRecords | keiba-calculator/src/lib/ipat/historyParser.ts:39 | Text in which no line names a bet type gives no records. |
| HistoryParser.BetRoundTrip | keiba-calculator/src/lib/ipat/historyParser.ts:37-48 | A bet line `h0 sep h1 … gap amount 円` is read as selection "h0-h1-…" and that amount, under the race and bet type in force. |
| WebSocketClose.SanitizeCloseCode | src/utils/websocket.ts:8-23 | The result is always a sendable code: 1000-4999 and not 1004, 1005, 1006 or 1015. |
| WebSocketClose.CloseCodeKept | src/utils/websocket.ts:20-22 | A sendable code is returned unchanged. |
| WebSocketClose.CloseCodeTruncates | src/utils/websocket.ts:11 | A number is judged by its truncation toward zero. |
| WebSocketClose.CloseCodeDefault | src/utils/websocket.ts:9-22 | The result is 1000 iff the argument is not a finite number whose truncation is sendable, or that truncation is 1000. Any other result is the truncation. |
| WebSocketClose.CloseCodeIdempotent | src/utils/websocket.ts:8-23 | Sanitizing a sanitized code changes nothing. |
| WebSocketClose.CloseCodeScenarios | src/utils/websocket.test.ts:4-30 | Non-numbers and non-finite numbers give 1000. So do 1004, 1015, 999, 5000 and -1. 1001 and 4000 are kept, and 4000.9 gives 4000. |
| WebSocketClose.DecodeUtf8 | src/utils/websocket.ts:33-39 | The UTF-8 decoder reads the UTF-8 encoding of any text back as that text, whatever follows. |
| WebSocketClose.Utf8RoundTrip | src/utils/websocket.ts:33-39 | Decoding the encoding of a text gives back the text, when it does not start with a byte-order mark. |
| WebSocketClose.DecodeCut | src/utils/websocket.ts:37-39 | A character cut short inside its encoding decodes to one U+FFFD. |
| WebSocketClose.Fitting | src/utils/websocket.ts:35-37 | The longest prefix whose encoding fits in n bytes: it fits, and adding the next character would not. |
| WebSocketClose.ReasonShort | src/utils/websocket.ts:29-35 | A reason of at most 123 bytes is returned unchanged. |
| WebSocketClose.ReasonLong | src/utils/websocket.ts:35-39 | A longer reason becomes its longest fitting prefix, plus U+FFFD when the cut falls inside a character, with a leading byte-order mark dropped. |
| WebSocketClose.ReasonLongBytes | src/utils/websocket.ts:35-39 | The exact byte size of a cut reason: the fitting prefix, plus 3 when the cut falls inside a character, minus 3 when a leading byte-order mark is dropped. |
| WebSocketClose.ReasonOverflow | src/utils/websocket.ts:25-39 | The result never exceeds 125 bytes. It exceeds 123 iff the reason is too long, its fitting prefix ends 1 or 2 bytes short of 123, and it does not start with a byte-order mark. |
| WebSocketClose.ReasonOverflowScenario | src/utils/websocket.ts:35-39 | 121 × 'a' followed by あ comes out as 124 bytes. |
| WebSocketClose.SanitizeCloseReasonFitted | src/utils/websocket.ts:25-40 | Corrected sanitizer: at most 123 bytes, a prefix of the reason, the longest such prefix, and '' for a non-string. |
| WebSocketClose.FittedAgrees | src/utils/websocket.ts:28-40 | Without a leading byte-order mark, the corrected sanitizer agrees with the original iff the reason is no string, fits, or is cut exactly at a character boundary. |
| WebSocketClose.ReasonScenarios | src/utils/websocket.test.ts:33-44 | A non-string and '' give ''. 1000 × 'a' gives 123 × 'a'. |
| WebSocketClose.ReasonMultibyteScenario | src/utils/websocket.ts:35-39 | 200 × あ (600 bytes) gives the first 41 of them, exactly 123 bytes, because the cut falls on a character boundary. |
| WebSocketClose.FittingUnique | src/utils/websocket.ts:35-37 | A prefix that fits in n bytes and would not fit with one more character is the longest fitting prefix. |
| WebSocketClose.ReasonCutAfter | src/utils/websocket.ts:35-39 | When byte 123 falls inside the character after a prefix p, the version as written gives p plus U+FFFD, 3 bytes more than p. The fitted version gives p. |
| WebSocketClose.RepeatBytes | src/utils/websocket.test.ts:47 | A text repeated k times takes k times the bytes of one copy. |
| WebSocketClose.ReasonRepeatCut | src/utils/websocket.ts:35-39 | k copies of a 3+2+2-byte unit, cut inside the second character of copy j+1, come out as j units, the first character and U+FFFD, 2 bytes over the limit. The fitted version gives j units and the first character. |
| WebSocketClose.ReasonTestScenario | src/utils/websocket.test.ts:46-50 | The test's reason is U+201E U+00C5 U+00C7 repeated 200 times (1400 bytes). As written it comes out as 125 bytes, so the test's bound of 123 fails. The fitted version gives 122 bytes. |
| Seqs.FilterComplement | keiba-calculator/src/lib/calculator/refund.ts:19-26 | Filtering by a predicate and by its negation splits a sequence: the lengths add up and the two bags make the whole bag. |
| Sorting.SortBy | keiba-calculator/src/lib/ipat/raceInfoParser.ts:51 | The result is sorted by the key and is a permutation of the input. |
| Sorting.SortAscendingCanonical | keiba-calculator/src/lib/calculator/payout.ts:43-44 | Two number lists sort to the same list iff they hold the same numbers as bags. |

## Left out

- `safeWebSocketClose` (src/utils/websocket.ts:45-58) is left out: it only calls `ws.close` and swallows its exceptions.
- The `unknown` arguments of the two sanitizers are cut down to what they look at. `CodeArg` is a finite number, a non-finite number, or not a number. `ReasonArg` is text or not text.
- JavaScript strings are UTF-16. Here a string is a sequence of Unicode scalar values, so lone surrogates and their replacement by `TextEncoder` are not modelled.
- Odds, dividends and payouts are exact rationals (`real`), not IEEE-754 doubles. `Math.floor` of a product is exact here, while a double product can land just below an integer. Numbers past 2^53 keep full precision.
- `parseFloat` is modelled on the digit-and-point groups the odds pattern can capture, as the exact decimal value.
- `combination` divides with floating point and rounds the result. The model uses the exact quotient n(n-1)…(n-r+1) / r!, which is what the rounding recovers for the small arguments the calculator sees.
- `combination` and `permutation` are not called by the generators in `combinations.ts`. Here they serve as the reference the ticket counts are proved against.
- `types.ts` is modelled only as far as the core uses it. Ticket ids, purchase lists and dates are left out.
- The React components, the pages and the glossary are left out: they are user interface.
- `Sorting.SortBy` states that the result is sorted and a permutation, not that the sort is stable. The race card's horses are sorted by number, and the source relies on nothing beyond that.
- `FormationTickets.CalculateFormationTickets` bounds the count by the product of the list lengths instead of giving it exactly: overlapping lists make the count depend on how many choices coincide.
- `OddsParser.ParseOddsTextCorrected` is not the source's reader: it tries the tab pattern first, the evident intent of `oddsParser.ts:45`. The source's reader is `OddsParser.ParseOddsText`.
- `RaceInfoParser.ParseRaceInfoTextCorrected` is not the source's reader: it keeps a two-digit race number whole. The source's reader is `RaceInfoParser.ParseRaceInfoText`.
- `HistoryParser.BetRoundTrip` and `OddsProperties.ChainRoundTrip` cover lines written in the documented layouts: separators `-`, `→`, `＝` with spaces around them, and a gap of whitespace before the value. Lines with other leading text rely on the first-match search (`HistoryParser.BetSearch`).
- The history reader keeps the race pattern as written. Its label glues venue, number and `R` back together, so splitting "11R" into venue "1" and race 1 does not change the label. `RaceLines.LabelRoundTrip` states this for the as-written reading too.
- RaceInfoParser.CardLineNotShort: covers only a card match at the start of the line. When the first card match sits further in and is rejected for its range, the short pattern can still match from the start: "12 X 0 5 nm jk" has its card match at frame 0, and the source then pushes horse 12 named "X". No lemma here states that case.
- `WebSocketClose.Utf8RoundTrip` excludes a text that starts with U+FEFF, because the decoder strips a leading byte-order mark. `WebSocketClose.ReasonLong` states what happens in that case.

## Findings

| source | as written | input that shows it | evidently intended | confidence | as-written member | corrected member |
|---|---|---|---|---|---|---|
| keiba-calculator/src/lib/ipat/oddsParser.ts:35-54 | Pattern 1 is tried first, and its `\s+` also matches a tab, so the tab-separated branch never runs. A tab line is read as the first horse with the second horse's number as its odds. | `"1\t2\t15.3"` gives key "1" and odds 2. | Key "1-2" and odds 15.3, as the comment at line 45 says. | not executed | OddsProperties.TabScenarioAsWritten | OddsProperties.TabScenarioCorrected |
| keiba-calculator/src/lib/ipat/raceInfoParser.ts:12-16 | The optional lazy venue group `(\S+?)` is tried before it is skipped. It takes the first digit of a race number that starts the line. | First line `"11R"` gives venue "1" and race number 1. | No venue and race number 11. | not executed | RaceInfoParser.RaceNumberReadings | RaceLines.SplitNumberWhole |
| src/utils/websocket.ts:35-39 | The reason is cut at byte 123 and then decoded. A cut inside a multi-byte character adds U+FFFD, which is 3 bytes, so the result can reach 124 or 125 bytes, above the limit of section 5.5 of RFC 6455. | `"a" × 121 + "あ"` comes out as 124 bytes. The test's reason, U+201E U+00C5 U+00C7 repeated 200 times, comes out as 125 bytes (`WebSocketClose.ReasonTestScenario`). | At most 123 bytes: cut at the last character boundary that fits. | not executed | WebSocketClose.ReasonOverflowScenario | WebSocketClose.SanitizeCloseReasonFitted |
