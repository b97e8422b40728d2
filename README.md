# PODBot odds pipeline, modelled in Dafny

PODBot compares two sportsbooks. A "POD" alert names a game. The bot looks the game up
on BetBCK, scrapes its odds, and pairs them with Pinnacle's. It strips the bookmaker
margin from Pinnacle's prices ("no-vig" prices, NVPs) and computes the expected value
(EV) of each BetBCK bet. A Flask server keeps the active events in memory. Two browser
pages show them: a table view and a card view.

This project models the logic in the middle of that pipeline and proves properties
of the model:

- team-name canonicalisation and choosing the matching BetBCK game
  (`betbck_scraper.py`, module `TeamNames`);
- parsing of odds text (`betbck_scraper.py`, module `OddsText`);
- American/decimal price conversion, EV, the search-term choice, and pairing
  BetBCK markets with Pinnacle NVPs (`main_logic.py`, module `MainLogic`);
- no-vig annotation in two revisions, one in `server.py` (`ServerNoVig`) and one in
  `utils.py` (`UtilsNoVig`);
  - the market walk they share is in `OddsDisplay`;
  - shared market arithmetic is in `Markets`;
- the server's event store: a class holding the store map and the attempted-scrape set
  (`server.py`, module `EventStore`);
- the table page (`static/realtime.js`, module `RealtimeView`);
- the card page (`static/js/realtime.js`, module `CardsView`).

Helper modules:
- `Text`: ASCII character classes, strip, split/join, replace.
- `Numerals`: digits, Python `float()` of decimal literals, float `repr` of values
  on the hundredths grid (other values are rounded to it first), hundredths formatting,
  half-even rounding.
- `Values`: Python JSON-like values.
- `JsValues`: JavaScript values and `parseFloat`.
- `Sums`: sums of real sequences.
- `Ranking`: a stable descending sort over an extended-real key (finite, plus or minus
  infinity).
- `Wrappers`: `Option`/`Result` and a filter-map.

Modelling conventions:
- Odds are `real`s.
- `math.pow` and `math.log` are function parameters, and so is the fuzzy name scorer.
  The power method's convergence is therefore left abstract. Every result about it
  holds for any `pow` and `log`.
- Code that loops or mutates is modelled as a method. Each method is proved equal to
  a specification function, and the properties are stated as lemmas about that
  function.
- Exceptions the source can raise are the `Raised` case of a `Result`.
- The clock is a parameter (`now`, `nowMs`).

## Model

| member | source | states |
|---|---|---|
| TeamNames.RemoveParens | betbck_scraper.py:91 | the result uses only characters of the name, and a name without '(' is unchanged |
| TeamNames.RemoveParensSubsequence | betbck_scraper.py:91 | the result is a subsequence of the name: removing groups only deletes characters and keeps the rest in order |
| TeamNames.RemoveParensKeepsPlain | betbck_scraper.py:91 | text before the first '(' that does not end in whitespace is kept as it is, in front of the rest's result |
| TeamNames.RemoveParensDropsGroup | betbck_scraper.py:91 | a "(...)" group without a ')' inside, with the whitespace before it, is removed whole |
| TeamNames.RemoveParensNoGroup | betbck_scraper.py:91 | after the removal no '(' is followed anywhere later by a ')' |
| TeamNames.StripSuffix | betbck_scraper.py:97-100 | a name ending with the suffix (case-insensitively) loses it and is stripped, unless that leaves nothing and the name is longer than the suffix, in which case it is unchanged; a name not ending with the suffix is unchanged; the result is never longer |
| TeamNames.StripSuffixesPrefix | betbck_scraper.py:96-100 | the suffix loop only cuts from the end: its result is a prefix of the name, and still does not start with whitespace |
| TeamNames.StripSuffixesLoop | betbck_scraper.py:96-100 | the loop tries every listed suffix in list order |
| TeamNames.FirstMatchingPrefix | betbck_scraper.py:101-103 | the index found is the first in list order whose club prefix the name starts with; no earlier prefix matches, and it is past the list exactly when none does |
| TeamNames.StripClubPrefixLoop | betbck_scraper.py:101-103 | the loop with its break strips exactly the first matching club prefix and no other |
| TeamNames.OnePrefixOnly | betbck_scraper.py:101-103 | "fc sc dnipro" becomes "sc dnipro": a second prefix is left alone |
| TeamNames.ApplyAlias | betbck_scraper.py:104-107 | the alias rules are exclusive and the first applicable wins: exact "tottenham hotspur", then containing "paris saint germain", then "czechia", then "new york" replaced by "ny"; with no rule applicable the name is unchanged |
| TeamNames.DropClubTag | betbck_scraper.py:108 | dropping a trailing fc/sc/cf only deletes characters |
| TeamNames.EdgeTrim | betbck_scraper.py:109 | the edge trim empties the name exactly when it has no word character; otherwise, when no newline blocks the regex, the result starts and ends with a word character |
| TeamNames.TidyCharacters | betbck_scraper.py:109-111 | after the character filter and whitespace collapse the name has no whitespace at either end |
| TeamNames.NormalizeTeamName | betbck_scraper.py:87-114 | the normalisation loops compute the rewrite chain; an empty name gives "" |
| TeamNames.NormalizeSpec | betbck_scraper.py:87-114 | a normalised name never starts or ends with whitespace |
| TeamNames.TidyShape | betbck_scraper.py:109-111 | a tidied name without a newline is empty or starts and ends with a word character, holds only word, space, '.', '-' and '+' characters, and has single spaces |
| TeamNames.CleanedShape | betbck_scraper.py:87-111 | the whole cleaning path produces that shape for any name without a newline |
| TeamNames.NormalizeFallback | betbck_scraper.py:114 | when cleaning leaves nothing, the result is the lower-cased, stripped original |
| TeamNames.MatchDecision | betbck_scraper.py:294-313 | an exact (home = local, away = visitor) match gives True, else the exact flipped match gives False; otherwise both order-1 fuzzy scores at or above the threshold give True, else both order-2 scores give False, else no match |
| TeamNames.ExactMatchSymmetric | betbck_scraper.py:296-301 | without a scorer, swapping local and visitor flips the orientation, and a match exists exactly when one of the two exact orientations holds |
| TeamNames.ExactMatchIgnoresScorer | betbck_scraper.py:296-302 | when an exact match exists the scorer is never consulted |
| TeamNames.WrapperDecision | betbck_scraper.py:276-321 | a game wrapper is matched only with both raw names present, neither containing a skip indicator, an odds table with at least two data rows, and the match decision on the normalised names |
| TeamNames.HasSkipIndicatorLoop | betbck_scraper.py:287-288 | the indicator loop finds a skip indicator exactly when one occurs in the name |
| TeamNames.DecideWrapper | betbck_scraper.py:276-339 | the per-wrapper checks compute the wrapper decision |
| TeamNames.Decisions | betbck_scraper.py:276 | one decision per wrapper, in order |
| TeamNames.FirstSomeIsFirst | betbck_scraper.py:276-392 | the search result is the first wrapper with a decision, or none when no wrapper has one |
| TeamNames.ScanWrappers | betbck_scraper.py:276-395 | the wrapper loop stops at the first decided wrapper |
| TeamNames.FindMatchingGame | betbck_scraper.py:272-395 | the game found is the first matching wrapper with its orientation, every earlier wrapper fails to match, and none is found only when no wrapper matches |
| TeamNames.DeriveSearchQuery | betbck_scraper.py:407-419 | a given term is used as is; otherwise the query follows the token rule on the normalised home name (the last token when there are several, it is longer than 3 and no stop word; else the first token when longer than 2 and no stop word; else the normalised name; the raw name when that has no token) |
| TeamNames.QueryFromCleaned | betbck_scraper.py:409-417 | the query follows that token rule on the cleaned name |
| TeamNames.SearchQueryNonEmpty | betbck_scraper.py:407-419 | a query derived from a non-empty home name or given term is never empty |
| OddsText.FormatLineShape | betbck_scraper.py:188-189 | a non-zero line prints as its sign, the integer part and a fraction that drops ".00" and shortens ".50" to ".5" |
| OddsText.FormatLine | betbck_scraper.py:188-189 | zero prints "0"; other values print their sign, the integer part of the hundredths and the shortened fraction |
| OddsText.ShortenFixed | betbck_scraper.py:188-189 | the two-decimal text loses ".00", turns ".50" into ".5", and keeps other decimals |
| OddsText.FormatZero | betbck_scraper.py:206-207 | zero prints "0", unsigned |
| OddsText.FormatLineSign | betbck_scraper.py:188-189 | positive lines get a leading '+', negative ones '-', zero none |
| OddsText.FormatTinyValue | betbck_scraper.py:188-189 | a non-zero value that rounds to 0.00 prints as a signed "0" ("+0" or "-0") |
| OddsText.TinyValueExample | betbck_scraper.py:188-189 | 0.001 prints "+0" |
| OddsText.FormatLineParses | betbck_scraper.py:188-189 | the printed line reads back with Python float() as the value rounded to hundredths |
| OddsText.FormatLineOnGrid | betbck_scraper.py:188-189 | every printed line reads back as a value on the hundredths grid, so its away key reads back exactly (MainLogic.AwayKeyNegates) |
| OddsText.FormatLineChars | betbck_scraper.py:188-189 | a printed line holds only signs, digits and '.' |
| OddsText.SameFormat | betbck_scraper.py:188-189 | values with the same sign and the same hundredths print alike |
| OddsText.FormatLineStable | betbck_scraper.py:175-209 | normalising an already printed line (zero or at least 0.01 in magnitude) gives it back |
| OddsText.NormalizeLine | betbck_scraper.py:175-209 | the result is either the input unchanged or the canonical print of some value |
| OddsText.NormalizeAsianHandicap | betbck_scraper.py:175-177 | None stays None; a string is normalised |
| OddsText.PkIsZero | betbck_scraper.py:179-181 | a "pk" line without a comma normalises to "0" |
| OddsText.QuarterLineAverage | betbck_scraper.py:194-201 | a two-part "a,b" line prints as the average of its parts |
| OddsText.UnreadableUnchanged | betbck_scraper.py:204-209 | text that is not a number comes back unchanged |
| OddsText.NormalizeTwice | betbck_scraper.py:175-209 | normalisation is idempotent, except for the signed zeros "+0" and "-0" |
| OddsText.Average | betbck_scraper.py:199 | the average of a quarter line lies between its parts |
| OddsText.OddsTokenAt | betbck_scraper.py:172 | a match is a sign followed by at least three digits |
| OddsText.MatchesDisjoint | betbck_scraper.py:172 | no match starts inside another, so findall's matches are the match starts |
| OddsText.LastOddsStart | betbck_scraper.py:172 | the start found is the last match before the position |
| OddsText.ExtractAmericanOdds | betbck_scraper.py:158-173 | None exactly when the text has no signed three-plus-digit token not preceded by ".digit"; otherwise the last such token |
| OddsText.OddsTokenFound | betbck_scraper.py:172-173 | a bare odds token is extracted from itself |
| OddsText.NumberTokenParses | betbck_scraper.py:153 | the leading number of a totals match reads as a float |
| OddsText.FirstTotalStart | betbck_scraper.py:153 | the totals search finds the leftmost "o/u" group |
| OddsText.FirstTotalGroup | betbck_scraper.py:153 | the group returned is at the leftmost matching position, and none means no position matches |
| OddsText.ExtractLineValue | betbck_scraper.py:137-156 | only the "Total" market with non-empty text yields a line, and then exactly when the cell text has an "o/u" total group |
| OddsText.TotalCellLine | betbck_scraper.py:137-156 | a total cell "o"/"u" + a decimal literal + a space + an odds token yields the normalised literal as its line |
| OddsText.MatchOption | betbck_scraper.py:219 | a matched drop-down option has a line without spaces and a valid odds token |
| OddsText.OptionCaptured | betbck_scraper.py:219 | an optionally signed decimal literal, spaces and an odds token are captured as exactly that line and those odds |
| OddsText.SpreadOptionFromText | betbck_scraper.py:218-224 | an option built from drop-down text carries a valid odds token |
| OddsText.SpreadOptionCaptured | betbck_scraper.py:218-224 | such drop-down text gives the option with the normalised line and those odds |
| OddsText.SpreadOptions | betbck_scraper.py:216-224 | at most one option per drop-down entry, each with valid odds |
| OddsText.ExtractSpreadOptions | betbck_scraper.py:216-224 | the option loop keeps entries in order and skips the unmatched ones |
| OddsText.AllOptionsKept | betbck_scraper.py:217-224 | when every entry matches, every entry gives its option, in order |
| OddsText.UnmatchedOptionDropped | betbck_scraper.py:217-224 | an entry that does not match adds nothing |
| OddsText.OptionOddsFound | betbck_scraper.py:217-224 | every option's odds text is itself an extractable odds token |
| MainLogic.DecimalOfAmerican | main_logic.py:38-41 | no price for 0; a/100+1 above zero, 100/\|a\|+1 below; every price is above 1 |
| MainLogic.AmericanToDecimal | main_logic.py:33-41 | None, booleans, lists and dicts have no price; numbers convert as above; any price is above 1 and comes from a truthy value |
| MainLogic.PickEmHasNoOdds | main_logic.py:36-38 | "PK" has no decimal price |
| MainLogic.NotAvailableHasNoOdds | main_logic.py:36-37 | "N/A" has no decimal price |
| MainLogic.OddsTokenDecimal | main_logic.py:33-41 | a signed digit string converts as the integer it spells |
| MainLogic.CalculateEv | main_logic.py:43-45 | EV exists exactly when the bet price is non-zero and the fair price exceeds 1.0001; then bet = (EV+1)·fair, and EV > 0 exactly when the bet price beats the fair one |
| MainLogic.PercentText | main_logic.py:115 | the EV text is negative exactly for negative EV, ends in '%' after a '.' and two digits, and the figure before '%' reads back as 100·EV rounded to hundredths |
| MainLogic.CleanPodTeamName | main_logic.py:47-56 | the cleaning loop applies each listed suffix in turn |
| MainLogic.CleanPodWith | main_logic.py:47-56 | cleaning never lengthens the unbracketed name |
| MainLogic.CleanPodDropsSuffix | main_logic.py:51-55 | an unbracketed name ending in exactly one listed suffix, whose cut leaves something, loses that suffix and is stripped |
| MainLogic.StripSuffixesDrops | main_logic.py:51-55 | the suffix loop removes the first listed suffix the name ends with, when its cut leaves something and no later suffix matches |
| MainLogic.CleanPodKeepsCase | main_logic.py:49-56 | the cleaned name is a prefix of the unbracketed original, so its casing is kept |
| MainLogic.CleanPodEmpty | main_logic.py:51-55 | a name is cleaned to nothing only if it was empty or, at some stage, equal to a listed suffix |
| MainLogic.SigTerm | main_logic.py:64-68 | the significant term is the last token when there are two or more and it is significant, else the first token if significant, else none; none exactly when neither test passes |
| MainLogic.SearchTermOf | main_logic.py:62-73 | a known term for the cleaned home name wins, then one for the away name |
| MainLogic.SearchTermTokens | main_logic.py:69-73 | otherwise the home significant token, then the away one, then the cleaned home name or the raw one |
| MainLogic.SearchTermOrigin | main_logic.py:58-73 | the term is always a known term, a token of either name, or one of the home names |
| MainLogic.SearchTermNonEmpty | main_logic.py:58-73 | the search term is never empty when a home name exists |
| MainLogic.DetermineSearchTerm | main_logic.py:58-73 | a known term for the cleaned home name wins; the term is always a known term, a token of either name, or one of the home names; it is never empty when a home name exists |
| MainLogic.EvBet | main_logic.py:114-115 | a bet is recorded exactly when its EV exists, and carries its market, selection, line, odds and NVP |
| MainLogic.ThenAll | main_logic.py:98-149 | a property of every bet in two lists holds for every bet in their concatenation |
| MainLogic.MoneylineSide | main_logic.py:113-118 | money-line bets come only from truthy odds, are justified by their EV and are labelled ML |
| MainLogic.GuardedSide | main_logic.py:119-121 | a bet needs a Pinnacle entry at the key with a truthy NVP |
| MainLogic.AwayKey | main_logic.py:132-133 | "0", "0.0" and "pk" give "0.0"; other lines raise exactly when they are not plain decimal literals; a key is never "-0.0" or '+'-signed |
| MainLogic.AwayKeyNegates | main_logic.py:132-134 | the away key reads back as the negated BetBCK line rounded to hundredths, and as exactly the negated line when the line lies on the hundredths grid |
| MainLogic.AwayKeyOfZero | main_logic.py:132-133 | the zero lines give the key "0.0", which reads back as the negated line |
| Numerals.PyFloat | main_logic.py:132-133 | blank text is no float, and a float read needs a digit |
| Numerals.Fixed2Parses | main_logic.py:115 | the :.2f text ends in '.' and two digits and reads back as the value rounded to hundredths |
| MainLogic.NegatedKeyParses | main_logic.py:134 | the float text of a negated line reads back as that line rounded to hundredths, and exactly when the line lies on the hundredths grid |
| Numerals.PyFloatReprExact | main_logic.py:132 | the repr of a value on the hundredths grid reads back as that value |
| Numerals.GridValueOnGrid | main_logic.py:132 | rounding to hundredths is idempotent, and the negation of a grid value is on the grid |
| MainLogic.SpreadMarketBets | main_logic.py:126-137 | a spread bet exists only when its Pinnacle line and NVP are listed, and keeps the BetBCK line and odds |
| MainLogic.SpreadBets | main_logic.py:124-137 | every spread bet pairs one of the BetBCK spreads with its Pinnacle counterpart |
| MainLogic.SpreadBetsRaised | main_logic.py:124-137 | a raised exception ends the spread loop |
| MainLogic.SpreadLoop | main_logic.py:124-137 | the spread loop computes the list of paired spread bets |
| MainLogic.TotalBets | main_logic.py:140-149 | no total line gives no bet; a total bet needs the line string as a key of the Pinnacle totals |
| MainLogic.Pairing | main_logic.py:104-149 | every bet produced is paired as the market rules require |
| MainLogic.PairMarkets | main_logic.py:104-149 | the pairing code computes that list |
| MainLogic.PairedBetsHaveNvp | main_logic.py:113-149 | every bet has a truthy Pinnacle NVP that converts to a price, and a defined EV |
| MainLogic.PlusHomeLineUnpaired | main_logic.py:126 | a '+'-signed home line never meets a Pinnacle key printed by Python float repr |
| MainLogic.ProcessAlert | main_logic.py:75-163 | missing scraper, missing team names and a failed scrape give their error status with no bets; bets appear only on success and are all paired |
| MainLogic.Analysed | main_logic.py:98-157 | a successful scrape yields status success with exactly the paired bets, unless pairing raised |
| MainLogic.ScrapeFailed | main_logic.py:158-163 | a failed scrape reports the search term used |
| Markets.ValidIndices | server.py:86 | the usable odds positions, increasing, each usable and all of them |
| Markets.ValidOdds | server.py:88 | the usable odds, each above the floor |
| Markets.Implied | server.py:89 | the implied probabilities are strictly between 0 and 1 and invert the odds |
| Markets.Nones | server.py:87 | n positions, all None |
| Markets.Filled | server.py:96-99 | the NVP fill puts the i-th NVP at the i-th usable position and None everywhere else |
| Markets.FillNvps | server.py:96-99 | the fill loop has that result |
| Markets.NvpFromProb | server.py:95 | an NVP is a number exactly when its probability exceeds 1e-9 |
| Markets.Powered | server.py:60 | powering fails exactly when one pow fails; otherwise each value is its pow |
| Markets.DerivativeTerms | utils.py:36-42 | each derivative term is the powered value times the log of its probability |
| Markets.Above | server.py:56 | the probabilities above the floor; empty exactly when none is above it |
| Markets.MapBack | server.py:78-83 | each probability is mapped back to its position, keeping the length and the sum |
| Markets.MapBackZeros | server.py:78-83 | positions at or below the floor get 0 |
| Markets.MapBackPicks | server.py:78-83 | the values at the kept positions are the adjusted probabilities, in order |
| Markets.AmericanFigure | server.py:52-53 | prices of 2 or more give at least +100; lower prices give at most -100 |
| Markets.AmericanText | server.py:52-53 | the figure is printed with '+' from 2 up and with '-' below 2 |
| Markets.DecimalToAmericanAbove | server.py:49-53 | "N/A" exactly for non-numbers and prices at or below the floor |
| Markets.FigureOfPositive | server.py:52 | a positive American price survives the decimal round trip |
| Markets.FigureOfNegative | server.py:53 | a negative American price survives the decimal round trip |
| Markets.AmericanRoundTrip | server.py:51-53 | converting any American price to decimal and back gives it back, except -100, which comes back as "+100" |
| ServerNoVig.DecimalToAmerican | server.py:49-53 | "N/A" exactly for non-numbers and prices at or below 1.0001 |
| ServerNoVig.AmericanRoundTrip | server.py:49-53 | every integer a with 100 ≤ \|a\| < 1000000 round-trips, with -100 giving "+100" |
| ServerNoVig.Normalised | server.py:62 | normalising positive probabilities keeps the length and sums to 1 |
| ServerNoVig.Adjust | server.py:55-83 | the result has the input's length or the count of usable probabilities |
| ServerNoVig.AdjustSumsToOne | server.py:58-83 | whenever some probability exceeds 1e-9, every return path sums to 1 |
| ServerNoVig.AdjustNoneValid | server.py:57 | with no probability above 1e-9 the result is all zeros, of the input's length |
| ServerNoVig.AdjustLength | server.py:55-83 | with every probability usable the length is kept |
| ServerNoVig.AdjustMainPath | server.py:77-83 | on the converged main path the unusable slots are 0 and the usable slots hold the normalised powered values, in order |
| ServerNoVig.PowerIteration | server.py:59-70 | one loop pass leaves the iteration where the step function says |
| ServerNoVig.PowerLoop | server.py:58-70 | the exponent loop ends where at most 100 steps from k = 1 end |
| ServerNoVig.Remap | server.py:78-83 | the remap loop computes the mapped-back probabilities |
| ServerNoVig.AdjustPowerProbabilities | server.py:55-83 | the method computes the adjusted probabilities |
| ServerNoVig.RoundedOdd | server.py:92 | floats are rounded to 3 places and other values kept |
| ServerNoVig.ImpliedOf | server.py:89 | one implied probability per usable odd |
| ServerNoVig.NvpOf | server.py:85-99 | the NVP list has the odds' length, with None at every unusable position |
| ServerNoVig.NvpNoValidOdds | server.py:87 | no usable odds gives all None |
| ServerNoVig.NvpFairBook | server.py:92 | a book with implied sum at most 1.0001 + 1e-5 gives the usable odds rounded to 3 places |
| ServerNoVig.NvpAdjusted | server.py:93-98 | otherwise each usable slot gets the NVP of its adjusted probability, and those probabilities sum to 1 |
| ServerNoVig.CalculateNvpForMarket | server.py:85-99 | the fill loop computes that list |
| ServerNoVig.ServerNvp | server.py:111 | this revision's NVP step never raises |
| ServerNoVig.ProcessEventOddsForDisplay | server.py:101-107 | missing data or non-dict data gives the error reply |
| ServerNoVig.DisplayAnnotates | server.py:104-126 | a feed with dict periods keeps all keys at every level, leaves the other entries as they were, and annotates every period |
| ServerNoVig.DisplayNotesBadPeriods | server.py:107 | non-dict periods add a processing note, or raise when the notes are not a list |
| UtilsNoVig.DecimalToAmerican | utils.py:3-11 | "N/A" exactly for non-numbers and prices at or below 1.001 |
| UtilsNoVig.AmericanRoundTrip | utils.py:6-11 | every integer a with 100 ≤ \|a\| < 100000 round-trips, with -100 giving "+100" |
| UtilsNoVig.FloorsDiffer | utils.py:6 | 1.0005 is "N/A" here but converts in the server revision (server.py:51) |
| UtilsNoVig.Adjust | utils.py:13-54 | an adjusted list has one entry per positive probability |
| UtilsNoVig.AdjustFewValid | utils.py:16-18 | fewer than two positive probabilities give zeros, one per positive probability |
| UtilsNoVig.AdjustSumsToOne | utils.py:50-54 | with two or more, a result without an overflow sums to 1 |
| UtilsNoVig.PowerAll | utils.py:21-28 | the pow loop computes the powered list |
| UtilsNoVig.DerivativeOf | utils.py:36-43 | the derivative loop computes the derivative sum |
| UtilsNoVig.PowerIteration | utils.py:20-45 | one loop pass leaves the iteration where the step function says |
| UtilsNoVig.PowerLoop | utils.py:20-45 | the exponent loop ends where at most 100 steps from k = 1 end |
| UtilsNoVig.AdjustPowerProbabilities | utils.py:13-54 | the method computes the adjusted probabilities |
| UtilsNoVig.ImpliedOf | utils.py:62-65 | one positive implied probability per usable odd |
| UtilsNoVig.NvpOf | utils.py:56-79 | the list keeps the odds' length, with None at unusable positions; an overflow happens only in a book with margin |
| UtilsNoVig.NvpFewValid | utils.py:58-59 | fewer than two usable odds give all None |
| UtilsNoVig.NvpFairBook | utils.py:69-70 | a fair book gives the usable odds themselves, unrounded |
| UtilsNoVig.NvpAdjusted | utils.py:71-79 | otherwise each usable slot gets the NVP of its adjusted probability, and those probabilities sum to 1 |
| UtilsNoVig.CalculateNvpForMarket | utils.py:56-79 | the fill loop computes that list |
| UtilsNoVig.UtilsNvp | utils.py:102 | the walk's NVP step is this revision's NVP computation |
| UtilsNoVig.ProcessEventOddsForDisplay | utils.py:86-93 | a feed without a dict data or dict periods is returned unchanged |
| UtilsNoVig.DisplayAnnotates | utils.py:95-139 | the walk raises exactly when some period's NVP computation overflows; otherwise all keys are kept and every period is annotated |
| UtilsNoVig.NvpListsFull | utils.py:104 | the NVP list of a market has one entry per side, so the nvp_ keys are always written |
| OddsDisplay.Assign | server.py:112-113 | assigning distinct keys adds exactly them, keeps every other key, and stores each value under its key |
| OddsDisplay.NvpKeyList | server.py:112 | the nvp_ key of every side, in order |
| OddsDisplay.AmericanKeyList | server.py:113 | the american_ and nvp_american_ keys of every side, in pairs |
| OddsDisplay.AmericanValues | server.py:113 | each side's odd and NVP, converted to American |
| OddsDisplay.Padded | server.py:112 | the NVPs, padded with None to one per side |
| OddsDisplay.AmericanKeysDiffer | server.py:113 | the American keys of distinct sides are all distinct |
| OddsDisplay.SidesApart | server.py:111-113 | the written keys of the money-line, spread and total sides never collide with each other or with a side name |
| OddsDisplay.AnnotateInTwoSteps | server.py:111-113 | a market is annotated by first writing the NVPs and then their American forms |
| OddsDisplay.MarketKeepsOthers | server.py:111-113 | the annotation leaves every key it does not write untouched, including the original odds |
| OddsDisplay.MarketKeys | utils.py:99-113 | the keys added are the American keys, plus the nvp_ keys unless the revision skips a list of the wrong length |
| OddsDisplay.MarketNvps | server.py:112 | each nvp_ key holds its side's NVP, or None when the list is short |
| OddsDisplay.MarketAmericans | server.py:113 | each American key holds the conversion of its side's odd or NVP |
| OddsDisplay.MarketOdds | server.py:111 | the odds of the sides, in side order |
| OddsDisplay.AnnotateDict | server.py:111 | a market dict is annotated with its NVPs, or the exception propagates |
| OddsDisplay.AnnotateEach | server.py:115-119 | every dict in a spread or total group is annotated and other entries are kept; the walk raises exactly when one of them does |
| OddsDisplay.MarketStep | server.py:110 | the money-line step changes only its own key |
| OddsDisplay.GroupStep | server.py:114 | a group step changes only its own key |
| OddsDisplay.AnnotatePeriod | server.py:108-125 | a non-dict period is kept; an annotated period keeps its keys |
| OddsDisplay.AnnotatePeriods | server.py:108 | the walk over the periods keeps their keys, and raises exactly when one period does |
| OddsDisplay.NeverRaisingWalk | server.py:108-125 | with an NVP step that never raises, the walk never raises |
| OddsDisplay.PeriodAnnotated | server.py:109-125 | a period keeps its other keys, and its money_line, spreads and totals are annotated |
| EventStore.StoredStatus | server.py:168-170 | the stored status is "success" exactly when the carried BetBCK data succeeded |
| EventStore.AlertCode | server.py:150-221 | 400 exactly for a dict payload without an eventId; 500 for a non-dict payload, a raised display step, or a raised scrape; 200 otherwise |
| EventStore.AlertArrival | server.py:164-178 | a re-alert keeps its first arrival time; a new alert arrives now; the Pinnacle data and alert details are replaced |
| EventStore.AlertLeavesOthers | server.py:172 | an alert touches only its own event, in the store and in the attempted set |
| EventStore.NoRescrapeAfterSuccess | server.py:181-184 | an event whose stored scrape succeeded is not scraped again and keeps its data |
| EventStore.ScrapeOutcome | server.py:196-213 | a scrape stores its result, and the event stays marked as attempted exactly when the scrape succeeded |
| EventStore.RaisedScrapeKeepsMark | server.py:172-221 | a scrape that raises leaves the alert written with the carried BetBCK data and the event marked as attempted |
| EventStore.NoMainLogic | server.py:196 | without the main logic module the attempted set is unchanged and only carried data is kept |
| EventStore.SweepRemovesExpired | server.py:225-239 | the sweep removes exactly the entries older than 300 s from the store and the attempted set, keeps the rest as they were, and returns data for exactly the survivors |
| EventStore.NoArrivalNeverExpires | server.py:227 | an entry without an arrival time is never swept |
| EventStore.SweepIdempotent | server.py:237-239 | sweeping twice at the same time is sweeping once |
| EventStore.FreshAlertIsLive | server.py:165 | a new alert survives a sweep now and is gone 301 s later |
| EventStore.ActiveEvents.constructor | server.py:40 | the store and attempted set start empty |
| EventStore.ActiveEvents.HandlePodAlert | server.py:150-221 | the reply code is computed from the payload; an error before the store write leaves the state unchanged; otherwise the state becomes the state after the alert, including a 500 after a raised scrape |
| EventStore.ActiveEvents.StoreAlert | server.py:164-213 | the store and attempted set become the state after the alert; it reports whether the scrape raised |
| EventStore.ActiveEvents.RecordScrape | server.py:198-213 | a scrape result is stored and the attempt kept only on success; a raised scrape stores nothing and keeps the attempt |
| EventStore.ActiveEvents.Scan | server.py:225-236 | the display data of the live entries and the set of expired ids |
| EventStore.ActiveEvents.Forget | server.py:237-239 | the ids are removed from the store and the attempted set |
| EventStore.ActiveEvents.GetActiveEventsData | server.py:223-241 | returns the live entries' data and leaves the swept state |
| RealtimeView.DecimalOf | static/realtime.js:144 | no price for 0; o/100+1 above zero, 100/\|o\|+1 below; every price is above 1 |
| RealtimeView.AmericanToDecimal | static/realtime.js:144 | a price exists exactly for non-blank, non-"N/A" text or numbers that parse to a non-zero number |
| RealtimeView.SignedTextParses | static/realtime.js:144 | signed digit text parses to its integer |
| RealtimeView.DecodesServerText | static/realtime.js:144 | the page reads the server's American text back as the server's figure |
| RealtimeView.ServerFigureReadsBack | static/realtime.js:144 | converting a server figure to decimal and back gives it back, with -100 as +100 |
| RealtimeView.SnapshotKey | static/realtime.js:145 | snapshot keys have no upper-case letters and no whitespace |
| RealtimeView.PlainSnapshotKey | static/realtime.js:145 | plain parts are joined by '-' with the line's '.' written 'p' |
| RealtimeView.DistinctLinesDistinctKeys | static/realtime.js:145 | distinct lines of the same selection get distinct keys |
| RealtimeView.HomeLine | static/realtime.js:301 | the home line is '+'-signed exactly when hdp > 0 |
| RealtimeView.AwayLine | static/realtime.js:302-303 | the away line is '+'-signed exactly when hdp < 0, and is "0" at zero |
| RealtimeView.AwayIsNegatedHome | static/realtime.js:301-303 | the away line is the home line of -hdp |
| RealtimeView.LinesMirror | static/realtime.js:301-303 | for a non-zero line the two strings differ only in their sign |
| RealtimeView.HomeLineOf | static/realtime.js:301 | the home line is the hdp text, '+'-prefixed exactly when hdp converts to a positive number; numbers give HomeLine |
| RealtimeView.AwayLineOf | static/realtime.js:302-303 | the away line is the AwayLine of hdp converted to a number, "NaN" when it does not convert |
| RealtimeView.Display | static/realtime.js:217-219 | undefined and null show as "N/A" |
| RealtimeView.Ev | static/realtime.js:227-231 | EV exists exactly when both prices are present and convert and the NVP price exceeds 1.0001; bck = (EV+1)·nvp; EV > -1; positive exactly when BetBCK pays more |
| RealtimeView.EvAgreesWithServer | static/realtime.js:227-231 | the page's EV is the server's calculate_ev (main_logic.py:43-45) |
| RealtimeView.Classify | static/realtime.js:233 | positive exactly above 0.0001, negative exactly below -0.0001 |
| RealtimeView.RowFor | static/realtime.js:208-256 | with a payload, unoffered BetBCK odds hide the row; otherwise the row shows the quote, its snapshot key, EV and class, and is flagged exactly when its Pinnacle price changed |
| RealtimeView.RowsForAppend | static/realtime.js:208-256 | rendering two quote lists renders each in turn |
| RealtimeView.NoPayloadNoEv | static/realtime.js:209-211 | without a payload every quote shows, with "N/A" BetBCK odds and no EV |
| RealtimeView.UnpairedHidden | static/realtime.js:213-214 | with a payload, quotes without BetBCK odds are not shown |
| RealtimeView.ShownRowsOffered | static/realtime.js:213-214 | with a payload, every shown row has offered BetBCK odds |
| RealtimeView.FindLine | static/realtime.js:306-307 | the first list entry whose line equals the string, or none |
| RealtimeView.FirstOdds | static/realtime.js:306-307 | the odds of that first entry, or undefined |
| RealtimeView.PairedPrice | static/realtime.js:273 | BetBCK prices are used only in the paired Match period |
| RealtimeView.MoneylineQuotes | static/realtime.js:260-279 | home, away and, when offered, draw quotes, priced from the payload only when paired |
| RealtimeView.SpreadEntryQuotes | static/realtime.js:299-310 | no rows exactly for a non-object spread or one without hdp; otherwise home and away quotes on HomeLineOf and AwayLineOf of hdp, priced by exact line-string match when paired |
| RealtimeView.TotalEntryQuotes | static/realtime.js:326-335 | a total gives over and under quotes, priced only when the BetBCK total line's string equals the points' string |
| RealtimeView.PeriodQuotes | static/realtime.js:204-337 | an unpaired period's quotes carry no BetBCK prices |
| RealtimeView.UnmatchedPeriodHidden | static/realtime.js:263-273 | with a payload, periods other than Match show no rows |
| RealtimeView.RecordedLastWins | static/realtime.js:225 | the snapshot holds each key's last rendered Pinnacle price |
| RealtimeView.RecordedKeeps | static/realtime.js:225 | keys not rendered keep their snapshot value |
| RealtimeView.FlagsFollowPrevious | static/realtime.js:224 | a row is flagged exactly when the previous snapshot holds a different price for its key |
| RealtimeView.OnlyFlagsSeePrevious | static/realtime.js:195 | the previous snapshot affects only the flags |
| RealtimeView.RerenderFlagsNothing | static/realtime.js:195 | re-rendering against the snapshot just recorded flags nothing |
| RealtimeView.TableBuilder.RenderRow | static/realtime.js:208-256 | appends the row if shown and records its price in the snapshot |
| RealtimeView.TableBuilder.AppendSpreads | static/realtime.js:299-311 | the spread loop appends the rows of every spread |
| RealtimeView.TableBuilder.AppendTotals | static/realtime.js:326-336 | the total loop appends the rows of every total |
| RealtimeView.TableBuilder.AppendMarketRows | static/realtime.js:204-337 | appends the period's rows and records their prices |
| RealtimeView.TableBuilder.RenderPeriods | static/realtime.js:340-343 | renders all periods and records their prices |
| RealtimeView.PayloadOf | static/realtime.js:152 | the BetBCK payload is used only from a successful scrape |
| RealtimeView.TableFor | static/realtime.js:147-193 | a BetBCK error and missing Pinnacle data each give their own outcome |
| RealtimeView.TableRendered | static/realtime.js:147-193 | otherwise the table is the rows of all periods |
| RealtimeView.NoPayloadTableHasNoEv | static/realtime.js:209-211 | a table without a payload shows no EV |
| RealtimeView.PayloadTableShowsMatchOnly | static/realtime.js:340-343 | with a payload the table is the Match period's rows, all with offered odds |
| RealtimeView.RenderTable | static/realtime.js:147-356 | renders the table and returns its snapshot |
| RealtimeView.View.CreateTableForEvent | static/realtime.js:147-356 | renders against the event's previous snapshot and stores the new one (emptied on a BetBCK error) |
| RealtimeView.View.Forget | static/realtime.js:377 | drops the event's snapshot |
| RealtimeView.EventsToDisplay | static/realtime.js:364-366 | at most 5 events, by descending arrival time (the timestamp's Number() value, 0 when missing or not a number), taken from the feed |
| RealtimeView.ShownTiesInFeedOrder | static/realtime.js:364-366 | among events with the same arrival key, the ones shown are the first in feed order |
| RealtimeView.OmittedArriveNoLater | static/realtime.js:364-366 | every omitted event arrived no later than every shown one |
| CardsView.ElapsedOf | static/js/realtime.js:27-37 | the first unit whose ratio exceeds 1, else seconds |
| CardsView.ElapsedBounds | static/js/realtime.js:27-37 | each unit's count lies in its natural range |
| JsValues.NumberOf | static/js/realtime.js:137-138 | numbers are themselves, null, blank strings and [] are 0, undefined and objects no number, other strings their decimal reading, and arrays the reading of their String() text |
| JsValues.NumberOfSingleton | static/realtime.js:301-302 | an array of one non-null item converts as that item's String() text |
| CardsView.TimeSince | static/js/realtime.js:24-38 | "N/A" for a falsy timestamp; otherwise the elapsed count and unit |
| CardsView.RecentAlertInSeconds | static/js/realtime.js:24-37 | an alert under a minute old shows in seconds |
| CardsView.CardDecimal | static/js/realtime.js:96-97 | NaN for unparsable text, Infinity for 0, else the decimal price |
| CardsView.EvValue | static/js/realtime.js:99 | EV with IEEE infinities: NaN only for two zero prices, and never below -1 |
| CardsView.CardEv | static/js/realtime.js:95-99 | EV exists exactly when neither side is "N/A", both parse and the NVP price exceeds 1.0001 |
| CardsView.CardEvAgreesWithServer | static/js/realtime.js:95-99 | for non-zero prices the card's EV is the server's calculate_ev (main_logic.py:43-45) |
| CardsView.ClassOf | static/js/realtime.js:102 | positive above 0.0001, otherwise negative; unclassed only without EV |
| CardsView.ClassAgreesWithTable | static/js/realtime.js:102 | the card's classes agree with the table's, with neutral counting as negative |
| CardsView.UnpricedRowsHaveNoEv | static/js/realtime.js:95-102 | rows without BetBCK prices have no EV and no class |
| CardsView.MoneylineQuotes | static/js/realtime.js:126-133 | home, away and, when a draw NVP exists, draw quotes, priced from the payload |
| CardsView.CardAwayLine | static/js/realtime.js:138 | the card's away line is the table's AwayLineOf, "NaN" for a missing hdp |
| CardsView.SpreadEntryQuotes | static/js/realtime.js:136-143 | home and away quotes on the table's HomeLineOf and AwayLineOf of hdp, priced by first exact line match, unpriced without a payload |
| CardsView.SpreadLinesAgreeWithTable | static/js/realtime.js:137-138 | for numeric hdp both pages print the same lines |
| CardsView.TotalEntryQuotes | static/js/realtime.js:147-156 | over and under quotes, priced only when the total line's string equals the points' string |
| CardsView.PeriodQuotes | static/js/realtime.js:118-158 | money-line, spread and total quotes in that order; all unpriced without a payload |
| CardsView.JsMax | static/js/realtime.js:101 | Math.max is NaN when either side is, otherwise the larger |
| CardsView.MaxEvNaNAbsorbs | static/js/realtime.js:101 | one NaN EV makes the card's maximum NaN |
| CardsView.MaxEvIsMaximum | static/js/realtime.js:86-101 | otherwise maxEv bounds every EV, is one of them, and is -Infinity exactly when none is computed |
| CardsView.CardBuilder.constructor | static/js/realtime.js:86 | no rows, maxEv -Infinity |
| CardsView.CardBuilder.RenderRow | static/js/realtime.js:88-116 | appends the row and keeps maxEv the maximum of the rows |
| CardsView.CardBuilder.AppendMarketRows | static/js/realtime.js:118-158 | appends the period's rows, keeping maxEv |
| CardsView.BuildCard | static/js/realtime.js:83-163 | builds the card of an event |
| CardsView.CardMaxEvIsMaximum | static/js/realtime.js:163 | a card's maxEv bounds every row's EV, is one of them unless it is -Infinity, and is -Infinity exactly when no row has an EV |
| CardsView.NoPayloadCardHasNoEv | static/js/realtime.js:52 | without a payload a card has no EV and maxEv -Infinity |
| CardsView.SortKey | static/js/realtime.js:184-185 | NaN and zero rank as -Infinity |
| CardsView.SortCards | static/js/realtime.js:183-187 | the cards, rearranged in descending maxEv |
| CardsView.SortCardsStable | static/js/realtime.js:183-187 | cards with the same rank keep their order |
| CardsView.UnrankedCardsLast | static/js/realtime.js:183-187 | unranked cards come after all ranked ones |
| CardsView.RearrangedKeepsCards | static/js/realtime.js:181-188 | sorting loses and duplicates no card |
| CardsView.CardArea.SortByEv | static/js/realtime.js:181-189 | the dismissed cards stay first, followed by the active ones in descending maxEv |
| Ranking.SortDesc | static/realtime.js:365 | a descending permutation |
| Ranking.SortDescStable | static/realtime.js:365 | stability: the elements of each key keep their relative order |
| Ranking.SortDescOfSorted | static/realtime.js:365 | a sequence already in descending order comes back unchanged |
| Ranking.TopKeepsTieOrder | static/realtime.js:365-366 | the first n of the sorted sequence take the elements of each key in their original order |
| Ranking.LeftOutRanksLower | static/realtime.js:366 | what the top-k cut leaves out ranks no higher than what it keeps |

## Left out

- Network I/O is not modelled: BetBCK login, the search request and page fetches, and the Pinnacle API (`pinnacle_fetcher.py`).
- BeautifulSoup DOM walking is not modelled: reading names from the divs, the odds-table parsers, and collecting the game wrappers. A wrapper arrives as a `GameWrapper` value holding its raw names and table facts.
- The text branch of the spread-option extraction (betbck_scraper.py:226-232) is left out; only the drop-down-text branch is modelled.
- The line and odds extractors work on cell strings, not on table cells.
- The fuzzy `token_set_ratio` scorer is a parameter, since it is a foreign library.
- `math.pow` and `math.log` are parameters, and reals stand in for floats. No specific NVP values are claimed, and IEEE rounding, overflow and convergence are not modelled beyond `pow` failing.
- `round(x, 3)` is modelled by `Round3`; the `.2f` formatting is modelled exactly only down to hundredths.
- `\w`, `\s`, `\d` and `lower()` are ASCII approximations: Python's `\d` also matches non-ASCII decimal digits.
- Feeds are modelled as values. The in-place mutation of nested dicts is captured by the rebuilt value, not by aliasing.
- Flask routing, CORS, the background refresher thread (server.py:129-148) and concurrent access to the store are left out.
- The clock is the parameter `now` (server) or `nowMs` (browser).
- JavaScript values are approximate:
  - `JsValue` has no NaN value;
  - object fields are in key order;
  - `parseFloat` reads no exponents or Infinity;
  - `String(number)` is modelled for multiples of 0.01 only.
- JsValues.NumberOf: strings are read as plain decimal literals; exponents, hex, `Infinity` and JavaScript-only whitespace are not read.
- RealtimeView.ArrivalKey: a timestamp whose Number() is NaN ranks as 0; in JavaScript the comparator then returns NaN, and the order `sort` gives is up to the engine.
- Numerals.PyFloat: only plain decimal literals are read; Python `float()` also accepts exponents, `inf`, `nan` and underscores.
- MainLogic.AwayKey: because of that, a line such as "1e1" raises in the model where Python returns "-10.0".
- Numerals.PyFloatRepr: `str(float)` is modelled on the hundredths grid only. A value off the grid is rounded to hundredths first, so the away key of "0.125" is "-0.12" where Python prints "-0.125". The exponent form (Python's "-1e-05" for "0.00001") is never produced. Every line the scraper prints lies on the grid (OddsText.FormatLineOnGrid), and for those the key is exact (MainLogic.AwayKeyNegates).
- A null spread or total entry, or a `home_spreads`/`away_spreads` value that is not an array, throws a TypeError in both pages (static/realtime.js:300, 326; static/js/realtime.js:137-150). A null item inside `home_spreads`/`away_spreads` throws too, because `bs.line` is read on it (static/realtime.js:306-307, static/js/realtime.js:139-140). The model skips such an entry or item (RealtimeView.FindLine passes over it) or gives undefined odds instead. The server never sends these values.
- Text.IsSpace: the separators \x1c-\x1f are not counted as whitespace; Python's `strip()`, `split()` and `\s` count them, JavaScript does not.
- RealtimeView.RowFor: the changed flag compares prices structurally; JavaScript `!==` compares objects by identity. Prices in the snapshot are numbers or strings.
- Browser DOM work is left out: popups, banners, headers, flash animations and the `toFixed` text.
- Card creation and removal, and the change detection in `fetchAndRefresh`, are left out.
- The snapshot re-render condition (static/realtime.js:403-413) is left out.
- The debug print loop of main_logic.py (151-155) and its import-time dummy scraper are left out.
- Loading config.json and writing debug files are left out.
- The browser extension under `pod_alert_extension` is not part of this model.
- ServerNoVig.Adjust: its length is stated only as the input's length or the count of usable probabilities; the exact case is in AdjustLength, AdjustNoneValid and AdjustMainPath.
