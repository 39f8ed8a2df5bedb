# Market analysis tool and bot catalog, modelled in Dafny

This project models two parts of a web trading dashboard.

**The market analysis tool** (`public/ai/ai.js`) keeps a live window of price ticks for one
symbol. It fills the window from a history request over a WebSocket and then from live ticks,
dropping the oldest tick once the window is over its capacity. For the window it shows:

- the distribution of last decimal digits, with the most, second-most, least and
  second-least frequent digit highlighted;
- the even/odd split and the parity strip of the last 20 ticks;
- the over/under/equal counts of consecutive quotes;
- the matches/differs counts of consecutive last digits.

When the socket closes, the tool reconnects with exponential backoff, at most five times.

**The bot catalog of the main page** (`src/pages/main/main.tsx`) turns a list of bot file paths
into catalog entries:

- a title cleaned from the file name;
- a description and a category, each chosen by a first-match keyword table;
- an icon and a gradient chosen from the category.

Bots whose file failed to load are dropped. The rest are sorted by category, then by title.

Modules:

- `Options` (options.dfy): `Option`, `Min`, `Max`.
- `Quotes` (quotes.dfy): a price as decimal digits, the `parseFloat`/`toString` round, decimal
  precision detection, and `getLastDigit` (its padding loop is a `while` loop).
- `TickStats` (tick_stats.dfy):
  - the digit histogram, built by a counting loop;
  - percentages as exact reals, summing to 100;
  - the stable descending ranking of digits and the highlights it yields;
  - the even/odd, recent-strip, over/under and matches/differs statistics. Each is a method
    with its loop, proved against a specification function.
- `TickStream` (tick_stream.dfy):
  - the reconnect delay, the window update and what `updateUI` draws;
  - the class `TickAnalyser`, holding the module-level state of `ai.js`, with one method per
    event: socket open, message, error and close, manual reconnect, symbol change, tick-count
    change, and the keep-alive ping.
- `JsText` (js_text.dfy): the JavaScript string operations the catalog uses: ASCII
  `toLowerCase`, `includes`/`indexOf`, `replace` with a string pattern, the global replace of
  `/\([^)]*\)/g`, `trim`, and the last piece of `split('/')`.
- `BotCatalog` (bot_catalog.dfy): keyword tables and first-match lookup, categories,
  descriptions, icons, title cleaning, loading, sorting and the whole catalog.

## Model

| member | source | states |
|---|---|---|
| Quotes.ParseQuote | public/ai/ai.js:37-39 | the parsed quote is in the shortest form `toString` prints (no trailing fractional zero), with the same integer part, and the original digits are exactly these followed by zeros |
| Quotes.ParseKeepsValue | public/ai/ai.js:37-39 | parsing does not change the number a quote denotes |
| Quotes.ParseShortestIsIdentity | public/ai/ai.js:45-46 | a quote already in shortest form parses to itself |
| Quotes.MaxFracLen | public/ai/ai.js:146-151 | the result bounds every tick's fractional length and, on a non-empty window, is attained by some tick |
| Quotes.DetectDecimalPlaces | public/ai/ai.js:143-153 | an empty window keeps the current precision; otherwise the precision is at least 2, covers every tick's fractional length, and is attained by some tick unless it is the floor 2 |
| Quotes.LastDigitCases | public/ai/ai.js:156-166 | the last digit is the final fractional digit when the fraction has at least `decimalPlaces` digits, and the padding 0 otherwise (including a quote without fraction) |
| Quotes.GetLastDigit | public/ai/ai.js:156-166 | the zero-padding loop yields the last digit of the padded fraction |
| TickStats.HistogramTotal | public/ai/ai.js:203-207 | the ten digit counts add up to the number of ticks |
| TickStats.CountDigits | public/ai/ai.js:203-207 | the counting loop computes the histogram: one count per digit, each the number of ticks ending in it |
| TickStats.PercentOrder | public/ai/ai.js:209 | percentages order and equate digits exactly as their counts do |
| TickStats.PercentagesSumTo100 | public/ai/ai.js:209 | on a non-empty window the ten digit percentages sum to exactly 100 |
| TickStats.InsertRankedPermutes | public/ai/ai.js:220 | inserting a digit into a ranking adds exactly that digit |
| TickStats.SortDescendingPermutes | public/ai/ai.js:220 | sorting by percentage permutes the digits |
| TickStats.SortDescendingSorted | public/ai/ai.js:220 | the sort of the digits 0..9 is descending by percentage, and ties keep ascending digit order (a stable sort) |
| TickStats.RankingIsStableSort | public/ai/ai.js:213-220 | the ranking of the ten digits is a permutation of 0..9, descending by percentage and stable on ties |
| TickStats.RankingUnique | public/ai/ai.js:213-220 | any two rankings meeting that description are equal, so the ranking is fully determined |
| TickStats.RankedAt | public/ai/ai.js:220-226 | a digit ranked earlier has a higher percentage, or an equal one and a smaller digit |
| TickStats.HighlightsAreDistinct | public/ai/ai.js:223-226 | ranks 0, 1, 9 and 8 get the most, second-most, least and second-least highlight; every other digit is plain |
| TickStats.MostAppearingDigit | public/ai/ai.js:223 | the green digit's count is the largest, and it is the smallest digit having that count |
| TickStats.SecondMostAppearingDigit | public/ai/ai.js:224 | the blue digit differs from the green one, and among the other digits its count is the largest, the smallest such digit on ties |
| TickStats.LeastAppearingDigit | public/ai/ai.js:225 | the red digit's count is the smallest, and it is the largest digit having that count |
| TickStats.SecondLeastAppearingDigit | public/ai/ai.js:226 | the orange digit differs from the red one, and among the other digits its count is the smallest, the largest such digit on ties |
| TickStats.UpdateDigitDisplay | public/ai/ai.js:202-271 | the display holds the histogram, whose total is the window size, the percentages and highlights, and the current digit, which is the last digit of the newest tick |
| TickStats.EvenTotalCountsTicks | public/ai/ai.js:287 | the even-digit counts add up to the ticks whose last digit is even |
| TickStats.OddTotalCountsTicks | public/ai/ai.js:288 | the odd-digit counts add up to the ticks whose last digit is odd |
| TickStats.EvenOddPartition | public/ai/ai.js:287-289 | even and odd ticks together are all ticks |
| TickStats.RecentEvenOdd | public/ai/ai.js:318-332 | the loop yields the parities of the last min(20, n) ticks, in window order |
| TickStats.RecentStripUnique | public/ai/ai.js:322-330 | that description fixes the strip |
| TickStats.EvenOddOf | public/ai/ai.js:291 | there is no even/odd row exactly when the window is empty |
| TickStats.PercentPairSum | public/ai/ai.js:293-294 | two complementary counts have percentages summing to 100 |
| TickStats.EvenOddMeaning | public/ai/ai.js:280-315 | on a non-empty window, the even count is the number of even ticks and the odd count that of odd ticks; they sum to the window size and their percentages to 100 |
| TickStats.UpdateEvenOddAnalysis | public/ai/ai.js:280-315 | the method computes `EvenOddOf` of the window: no row on an empty window, otherwise the counts and percentages `EvenOddMeaning` describes |
| TickStats.TrendPartition | public/ai/ai.js:342-353 | every consecutive pair is exactly one of over, under, equal, so the three counts add to n - 1 |
| TickStats.UpdateOverUnderAnalysis | public/ai/ai.js:335-380 | the loop computes the over/under row; there is none below two ticks, and otherwise the counts sum to n - 1 |
| TickStats.MatchesPartition | public/ai/ai.js:389-398 | matches and differs counts of consecutive last digits add to n - 1 |
| TickStats.UpdateMatchesDiffersAnalysis | public/ai/ai.js:383-420 | the loop computes the matches/differs row; there is none below two ticks, and otherwise the counts sum to n - 1 |
| TickStream.ReconnectDelay | public/ai/ai.js:71 | the backoff delay is between 1 s and the 30 s cap |
| TickStream.ReconnectDelayCapped | public/ai/ai.js:71 | from the fifth attempt on, the delay is the 30 s cap |
| TickStream.ReconnectDelayDoubles | public/ai/ai.js:71 | below the cap each attempt waits twice as long as the previous one |
| TickStream.ReconnectSchedule | public/ai/ai.js:69-71 | attempts 1 to 5 wait 2000, 4000, 8000, 16000 and 30000 ms |
| TickStream.HistoryTicks | public/ai/ai.js:36-40 | the window has one tick per historical price, in order; its quote is the parsed price and its epoch is `times[i]`, or undefined past the end of `times` |
| TickStream.PushTickShape | public/ai/ai.js:46-47 | after a push the new tick is last; the rest is the old window, without its oldest tick exactly when the window was at its capacity |
| TickStream.PushTickBounded | public/ai/ai.js:46-47 | a window within its capacity stays within it, a full one stays full, and a shorter one grows by one |
| TickStream.PushTickShortest | public/ai/ai.js:45-46 | pushing keeps every stored quote in shortest form |
| TickStream.AnalysisOf | public/ai/ai.js:169-173 | nothing is drawn exactly when the window is empty |
| TickStream.UpdateUI | public/ai/ai.js:169-180 | the method returns `AnalysisOf` the window, precision and capacity, whose contents `AnalysisTotals` describes |
| TickStream.AnalysisTotals | public/ai/ai.js:169-199 | a drawn analysis shows the newest price, `shown/capacity`, a histogram totalling the window, an even/odd split of the window, and over/under and matches/differs rows exactly from two ticks on, each partitioning the n - 1 pairs |
| TickStream.TickAnalyser.constructor | public/ai/ai.js:3-9 | the initial state is an empty window, symbol R_100, capacity 1000, 3 decimal places, disconnected, 0 attempts |
| TickStream.TickAnalyser.HistoryRequestNow | public/ai/ai.js:129-140 | the request names the current symbol and capacity, with end "latest", style "ticks" and subscribe 1 |
| TickStream.TickAnalyser.StartWebSocket | public/ai/ai.js:12-20 | a new socket replaces the old one and the status becomes connecting; nothing else changes |
| TickStream.TickAnalyser.OnOpen | public/ai/ai.js:22-27 | the status becomes connected, the attempt counter is reset, and the history request is sent |
| TickStream.TickAnalyser.OnHistory | public/ai/ai.js:34-43 | the window becomes the batch, one tick per price, and the precision is re-detected on it; the analysis of the new window is drawn and the status becomes receiving data |
| TickStream.TickAnalyser.OnTick | public/ai/ai.js:44-49 | the parsed tick is pushed within the capacity, its analysis is drawn (never empty), the status becomes live data, and the precision is not re-detected |
| TickStream.TickAnalyser.OnError | public/ai/ai.js:59-62 | the status becomes error; nothing else changes |
| TickStream.TickAnalyser.OnMessage | public/ai/ai.js:29-57 | an unparsable or unrecognised message changes nothing; otherwise history wins over tick, and tick over error. A history or tick message draws `AnalysisOf` the new window, and a tick message always draws something; an error message draws nothing and changes only the status |
| TickStream.TickAnalyser.OnClose | public/ai/ai.js:64-77 | below the maximum, the counter is incremented and the delay for the new count is returned; otherwise the status becomes failed and no reconnect is scheduled |
| TickStream.TickAnalyser.ManualReconnect | public/ai/ai.js:538-544 | the attempt counter is reset and a new socket is opened |
| TickStream.TickAnalyser.SetSymbol | public/ai/ai.js:506-514 | the symbol changes, the window is emptied and a new socket is opened |
| TickStream.TickAnalyser.SetTickCount | public/ai/ai.js:517-532 | a count in 1..5000 is accepted: it becomes the capacity, the window is emptied and a new socket opens. Anything else, `NaN` included, is rejected, leaves the state as it was, and restores the control to the current count |
| TickStream.TickAnalyser.KeepAlive | public/ai/ai.js:554-559 | a `{ping: 1}` is sent exactly when the current socket has opened and has not since closed or been replaced |
| TickStream.KeepAliveRun | public/ai/ai.js:554-559 | before the socket opens no ping is sent, once open one is, after a close or a replacement none is, and the new socket pings again once open |
| TickStream.ReplacedSocketRun | public/ai/ai.js:64-73 | after a symbol change the replaced socket's `onclose` schedules a 2 s reconnect although the new socket opens, and that reconnect's close schedules another: each round ends connected with the counter at 0 and one more reconnect pending |
| TickStream.BackoffRun | public/ai/ai.js:64-77 | six consecutive closes without an open wait 2000, 4000, 8000, 16000 and 30000 ms, then stop with status failed |
| JsText.ToLowerIdempotent | src/pages/main/main.tsx:256 | the lowered name has no upper-case ASCII letter, and lowering it again changes nothing |
| JsText.IndexFrom | src/pages/main/main.tsx:258 | `indexOf` returns the first occurrence at or after the start, or none when there is no occurrence |
| JsText.IncludesIff | src/pages/main/main.tsx:258 | `includes` holds exactly when the word occurs somewhere in the name |
| JsText.ReplaceFirstMeaning | src/pages/main/main.tsx:381 | `replace('.xml', '')` removes only the first occurrence: what precedes it holds none and what follows is kept; without an occurrence nothing changes |
| JsText.StripParenGroupsMeaning | src/pages/main/main.tsx:382 | the global replace leaves only characters of the input, leaves no '(' followed later by ')', and changes nothing in a name without ')' |
| JsText.StripParenGroupsDropsGroup | src/pages/main/main.tsx:382 | text before the first '(' is kept as it is, a group up to its first ')' is dropped, and the replace carries on with what follows |
| JsText.StripParenGroupsIdempotent | src/pages/main/main.tsx:382 | applying the replace twice is applying it once |
| JsText.TrimMeaning | src/pages/main/main.tsx:383 | `trim` keeps one contiguous stretch with only space around it, and that stretch neither starts nor ends with space |
| JsText.AfterLast | src/pages/main/main.tsx:379 | the last piece of `split('/')` is a suffix without '/', preceded by '/' unless it is the whole string |
| BotCatalog.FirstFiring | src/pages/main/main.tsx:324-366 | the chosen rule fires and no earlier rule does; no rule is chosen only when none fires |
| BotCatalog.FirstMatchAt | src/pages/main/main.tsx:255-321 | when rule k is the first to fire, the lookup yields its result |
| BotCatalog.FallbackIffNoneFires | src/pages/main/main.tsx:255-321 | the fallback is returned exactly when no rule fires (for tables whose results differ from it) |
| BotCatalog.CategoryLabelInjective | src/pages/main/main.tsx:324-366 | distinct categories have distinct labels |
| BotCatalog.CategoryResultsDistinct | src/pages/main/main.tsx:324-366 | the nine keyword branches give nine different categories, none of them General |
| BotCatalog.CategorizeFirstMatch | src/pages/main/main.tsx:324-366 | a name gets the category of branch k exactly when branch k's keywords occur in the lowered name and no earlier branch's do |
| BotCatalog.CategorizeIgnoresCase | src/pages/main/main.tsx:325 | the category depends only on the lowered name |
| BotCatalog.GhostWins | src/pages/main/main.tsx:328-330 | a name containing "ghost" or "odin" is a ghost strategy whatever else it contains |
| BotCatalog.GeneralIffNoKeyword | src/pages/main/main.tsx:324-366 | a name is General exactly when no branch's keywords occur in it |
| BotCatalog.DescriptionFirstMatch | src/pages/main/main.tsx:255-321 | a name gets the description of branch k when branch k is the first whose keywords (all of them for the two `&&` branches) occur in the lowered name |
| BotCatalog.GameChangerWins | src/pages/main/main.tsx:258-260 | a name containing "game changer" gets that description first |
| BotCatalog.DescriptionResultsNotDefault | src/pages/main/main.tsx:255-321 | no branch's description is the default one |
| BotCatalog.DefaultDescriptionIffNoKeyword | src/pages/main/main.tsx:320 | the default description is given exactly when no branch fires |
| BotCatalog.IconBranch | src/pages/main/main.tsx:186-204 | the branch taken is the first keyword the category contains, or the last branch when it contains none |
| BotCatalog.IconAndGradientAgree | src/pages/main/main.tsx:186-204 | the icon and the gradient always come from the same branch of their two parallel chains |
| BotCatalog.LastSegment | src/pages/main/main.tsx:379 | the file name is `AfterLast(path, '/')`, the text after the last '/', when that is not empty, and the whole path when it is empty (the path ends with '/', or is empty) |
| BotCatalog.CleanTitleMeaning | src/pages/main/main.tsx:380-383 | a cleaned title has no parenthesised group left and no space at either end |
| BotCatalog.XmlExtensionRemoved | src/pages/main/main.tsx:381 | when a name holds no ".xml" of its own, the first ".xml" of the file name `name + ".xml"` is the extension, and `replace('.xml', '')` gives back exactly the name |
| BotCatalog.WithoutDotNoXml | src/pages/main/main.tsx:381 | a name without a '.' holds no ".xml" |
| BotCatalog.CleanTitleOfXml | src/pages/main/main.tsx:380-383 | the title of a file `name + ".xml"` is the name with its parenthesised groups removed, then trimmed |
| BotCatalog.CleanTitleOnlyTrims | src/pages/main/main.tsx:380-383 | a name with no ".xml" and no ')' keeps all its text but the space at its ends, both as it is and as the file `name + ".xml"` |
| BotCatalog.CleanTitleDropsGroup | src/pages/main/main.tsx:380-383 | for a name with no ".xml" of its own, both as it is and as the file `name + ".xml"`: the text before the first '(' is kept, the group up to its first ')' is removed, and the rest is cleaned in turn |
| BotCatalog.MakeBotMeaning | src/pages/main/main.tsx:379-392 | an entry keeps its path; its file name is `LastSegment` of the path and holds a '/' only when it fell back to the whole path; its title is `CleanTitle` of the file name, so it has no parenthesised group and no space at either end; its description and category are computed from that title |
| BotCatalog.LoadResults | src/pages/main/main.tsx:368-398 | there is one result per file; result i is present exactly when file i loaded, and then it is `MakeBot` of file i |
| BotCatalog.PresentContents | src/pages/main/main.tsx:400 | `filter(Boolean)` keeps exactly the loaded entries, all of them when every file loaded |
| BotCatalog.PresentCount | src/pages/main/main.tsx:400 | `filter(Boolean)` keeps as many entries as there are present results |
| BotCatalog.InsertByPermutes | src/pages/main/main.tsx:403-408 | an insertion adds exactly the inserted entry |
| BotCatalog.InsertBySorted | src/pages/main/main.tsx:403-408 | inserting into a sorted list keeps it sorted, for any strict order |
| BotCatalog.SortByMeaning | src/pages/main/main.tsx:403-408 | sorting permutes the list and leaves it sorted |
| BotCatalog.BotOrderIsStrict | src/pages/main/main.tsx:403-408 | the comparator is a strict order whenever the string order is |
| BotCatalog.SortBotsOrder | src/pages/main/main.tsx:403-408 | the sorted bots are a permutation of the input, no later bot has a smaller category, and within a category no later bot has a smaller title |
| BotCatalog.Catalog | src/pages/main/main.tsx:368-408 | sorting neither adds nor drops an entry: the catalog has as many entries as the loaded bots; `CatalogSize` counts them and `CatalogContents` names them |
| BotCatalog.SortBotsStable | src/pages/main/main.tsx:403-408 | bots tied on both category and title keep their input order, as with the stable `Array.prototype.sort` |
| BotCatalog.CatalogSize | src/pages/main/main.tsx:368-408 | the catalog has exactly as many entries as files that loaded |
| BotCatalog.CatalogContents | src/pages/main/main.tsx:368-408 | an entry is in the catalog exactly when its file loaded and it is the entry built from that file; with every file loaded the catalog has one entry per file |

## Left out

- WebSocket I/O is left out: connecting, `send`, `close` and the events themselves. The
  socket is a counter of sockets opened, events are method calls, and the message is the
  parameter of `OnMessage`.
- `JSON.parse` is left out: a message that fails to parse is `None`, which the catch block
  turns into "nothing happens".
- Timers are left out: `OnClose` returns the delay it would pass to `setTimeout` and does not
  restart the socket itself. The 30-second `setInterval` is left out; `KeepAlive` models one
  of its runs.
- Events from an older socket after a new one has opened are treated like any other event;
  the model does not tie an event to the socket it came from. `startWebSocket` closes the old
  socket without detaching its `onclose`, so a symbol change, a tick-count change or a manual
  reconnect on an open socket starts a reconnect every 2 s that does not stop by itself
  (`ReplacedSocketRun`).
- `readyState` is the flag `socketOpen`: set by `onopen`, and cleared by `onclose` and by
  opening a new socket. An `onerror` event leaves it as it is. In a browser the socket is
  already closed when `error` fires, but its `close` event follows in the same task, so no
  health check can run between the two and the pings sent are the same; `OnError` also stands for the `data.error` message path.
- DOM rendering, `console` logging, the clipboard buttons (`ai.js` 423-502) and the
  status-label switch (`ai.js` 82-126) are left out. Only the values that would be drawn are
  modelled.
- Floating point is left out. A quote is its decimal digits, compared by exact value.
  Percentages are exact reals, and `toFixed(1)`/`toFixed(decimalPlaces)` rounding is not
  modelled.
- `parseFloat` of text in exponent form, and `toString` printing exponent notation, are not
  modelled.
- `parseInt` is left out: `SetTickCount` receives its result as an `Option<int>`, with `None`
  for `NaN`.
- Quotes.Quote: negative prices are not modelled, because the feed's synthetic indices are
  positive.
- JsText.ToLower: only the ASCII letters are lowered, not the rest of Unicode.
- BotCatalog.CategoryLabel: the emoji prefixes of the category labels are left out, and the
  labels are their ASCII text. The order `less` is then taken over these labels.
- BotCatalog.GetBotIcon: the icon glyphs are left out; the icon is a datatype.
- The list of bot files, `fetch`, `DOMParser`, the `image` and `xmlContent` fields, and React
  state and effects are left out. Whether a file loaded is a parameter.
- BotCatalog.SortBots: `localeCompare` is an abstract strict order `less` on strings. The
  model sorts by insertion, which is stable like `Array.prototype.sort`: `SortBotsStable`
  proves that bots tied on category and title keep their input order. That every stable sort
  by this comparator gives the same list would also need `less` to be a strict weak order,
  which `StrictOrder` does not require, so it is not stated.
- BotCatalog.CategorizeBotByName and BotCatalog.GetBotDescription are defined by the
  if-chains on one keyword table each, in source order. The chain form itself is not
  restated as code.
- `MakeBot` has no contract of its own; `MakeBotMeaning` states its properties.

Facts about the code worth stating:

- A history batch is not trimmed to the tick count. The window becomes the batch itself: it is
  built by mapping over `prices`, so ticks already in the window are replaced rather than merged,
  and a price with no entry in `times` gets an undefined epoch (`None`).
- The first reconnect waits 2000 ms, because the counter is incremented before the delay is
  computed.
- The decimal precision is re-detected only on history batches, not on live ticks.
