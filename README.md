# SICOOB-LEITOR text analyzer, in Dafny

The page in `script.js` takes the file a user picked and routes it by MIME type. `text/…` content is analyzed, and images and PDFs are previewed. For any other type no read is started, so the `onload` handler never runs and the page does nothing; the "unsupported format" alert at the end of that handler (script.js:28-29) can never be reached. This project models the parts that compute something:

- the routing rule of `analisarArquivo`;
- the statistics record of `analisarConteudo`: size, number of lines, words, characters and distinct words, the average word length, and the ten most frequent words;
- `contarPalavrasFrequentes`, which counts every word into a table, sorts the table's entries by descending count and keeps the first ten.

Modules, one per component of `script.js`:

- `Split` (`split.dfy`): JavaScript's `\s` class (`IsWs`), `split('\n')` (`SplitOn`, with `Join` as its inverse) and `split(/\s+/)` (`SplitWs`). These are pure functions, with lemmas about them.
- `Frequency` (`frequency.dfy`): the counting loop is a method over a `map<string, nat>` (`Tally`). `Object.entries` is a loop that lists the map in an open order (`Entries`). The sort is an insertion sort (`SortByCount`), and the slice keeps the first ten (`TopByCount`). `Occurrences` is the exact table, defined through multisets. `IsTopK` is what a correct top-ten list of a table is.
- `Analyzer` (`analyzer.dfy`): `Analyze` builds the `Stats` record. The average is the pair `Mean(total, count)`, or `Zero` for the source's `: 0` branch. `Reduce` is `reduce` without a seed, defined only on a non-empty sequence.
- `Seqs` (`seqs.dfy`): general facts about sequences that the proofs use.
- `Routing` (`routing.dfy`): `Classify` is the handler choice and `ReadModeFor` the `FileReader` call. Both follow the same chain of `startsWith` and `===` tests. `Dispatch` puts them together: a route runs only once a read was started.

Results that hold for all inputs:

- There is one more line than there are `'\n'` characters, and joining the lines with `'\n'` gives back the content.
- The word list is never empty and no word contains whitespace. A word followed by a whitespace run of any length splits off as the first word, ahead of the words of what follows the run; non-empty words joined by one whitespace character split back into those words. An empty content gives exactly one empty word. The first word is empty exactly when the content is empty or starts with whitespace, and the same holds for the last word with "ends with". No other word is empty. The words glued together are exactly the non-whitespace characters.
- The file size and the character count are the same number. The distinct-word count is the size of the table and never exceeds the word count.
- The table maps each word to its number of occurrences. Every entry is at least 1, and the entries add up to the word count.
- The top list:
  - has `min(10, number of distinct words)` entries;
  - gives each word its true count and never lists a word twice;
  - is sorted by non-increasing count;
  - leaves out no word whose count is higher than that of a word it keeps.
- The average is (number of non-whitespace characters, word count). Its `0` branch cannot be taken, so the `reduce` always runs on a non-empty array.
- The routing does not depend on the order of the tests: exactly one of `text/` prefix, `image/` prefix, exactly `application/pdf`, or none of these holds. The read call always matches the handler, and a type outside the three is never handled at all, so the unsupported route is dead code.
- The worked example `"the cat the dog the"` gives five words, three of them distinct, `["the", 3]` first in the top list, and an average of 15 characters over 5 words.

The specification of this repository also describes a fixed-width bank return ("RET") record decoder and routing on a `.ret` extension. `script.js` contains neither, so this model follows the code and has neither. For the same reason, the dispatcher here looks only at the MIME type.

## Model

| member | source | states |
|---|---|---|
| Split.IsWs | script.js:44 | no contract of its own: the ECMAScript WhiteSpace and LineTerminator code points that `\s` matches, listed one by one |
| Split.IsWsAscii | script.js:44 | on ASCII text `\s` is exactly space, tab, line feed, carriage return, vertical tab and form feed; no Latin letter (U+00C0 to U+024F) is whitespace |
| Split.SplitOn | script.js:43 | `split('\n')` always yields at least one line, and no line contains `'\n'` |
| Split.SplitOnCount | script.js:54 | `numLinhas` is the number of `'\n'` characters in the content plus one |
| Split.SplitOnJoin | script.js:43 | joining the lines with `'\n'` gives back the content exactly, so no character is lost or added |
| Split.SplitWs | script.js:44 | `split(/\s+/)` never yields an empty array: there is always at least one word |
| Split.SplitWsNoWs | script.js:44 | no word contains a whitespace character |
| Split.SplitWsFirst | script.js:44 | the first word is empty iff the content is empty or starts with whitespace |
| Split.SplitWsSingleIff | script.js:44 | the content splits into exactly one word iff it contains no whitespace |
| Split.SplitWsSingle | script.js:44 | content without whitespace splits into itself alone; in particular the empty content gives one empty word |
| Split.DropWsRun | script.js:44 | a whitespace run of any length in front of text that does not start with whitespace is consumed whole, so `\s+` is greedy |
| Split.SplitWsWordThen | script.js:44 | a word, a whitespace run of any length, and then text that does not start with whitespace split into that word followed by the words of the rest, element by element |
| Split.SplitWsCons | script.js:44 | the same as whole sequences: `split` of word, run and rest is the word in front of the `split` of the rest |
| Split.SplitWsJoin | script.js:44 | non-empty words without whitespace, joined by one whitespace character, split back into exactly those words |
| Split.SplitWsConcat | script.js:44 | the words, concatenated, are exactly the non-whitespace characters of the content in order |
| Split.SplitWsLast | script.js:44 | the last word is empty iff the content is empty or ends with whitespace |
| Split.SplitWsInterior | script.js:44 | only the first and the last word can be empty: whitespace runs are maximal |
| Frequency.OccurrencesSnoc | script.js:66 | one more occurrence of a word raises its table entry by one (from absent to 1) and changes no other entry |
| Frequency.Tally | script.js:63-67 | after the loop the table is exactly the occurrence count of each word; its keys are the distinct words; every entry is at least 1; the entries sum to the number of words |
| Frequency.Entries | script.js:69 | `Object.entries` lists every key of the table once, each with its count, and nothing else |
| Frequency.InsertByCount | script.js:70 | inserting an entry into a list sorted by descending count keeps it sorted and adds exactly that entry |
| Frequency.SortByCount | script.js:70 | the sort returns a permutation of the entries, ordered by non-increasing count |
| Frequency.ListingPermutation | script.js:69-70 | any rearrangement of a listing of the table is again a listing of the table, with no word twice and the same words |
| Frequency.SortedPrefixIsTopK | script.js:71 | the first `n` entries of a complete listing sorted by count are a top-`n` list of the table |
| Frequency.TopByCount | script.js:69-71 | entries, sort and `slice(0, 10)` give a top-ten list: `min(10, keys)` entries, true counts, no word twice, sorted, no left-out word above a kept one |
| Frequency.CountFrequent | script.js:63-72 | `contarPalavrasFrequentes` returns a top-ten list of the exact occurrence table of its words, never more than ten entries |
| Frequency.TopKHeadIsMax | script.js:69-71 | the first entry of a non-empty top list holds the highest count in the table |
| Analyzer.Lengths | script.js:47 | `map(palavra => palavra.length)` keeps one entry per word, and entry `i` is the length of word `i` |
| Analyzer.Reduce | script.js:49 | the seedless `reduce` with `+` is at least every element it folds |
| Analyzer.ReduceLengths | script.js:47-49 | the seedless `reduce` over the word lengths is the total length of all words |
| Analyzer.MeanLength | script.js:47-50 | the average is `0` exactly when there are no words; otherwise it is (total word length, number of words) |
| Analyzer.Distinct | script.js:45 | `new Set(palavras)` holds exactly the keys of the frequency table, so `numPalavrasUnicas` is the table's size |
| Analyzer.DistinctBound | script.js:45 | a set of the words never has more elements than there are words |
| Analyzer.Analyze | script.js:42-61 | the record: size and character count both equal the content length; lines are newlines plus one; at least one word; distinct words are the table's key count and at most the word count; top list is a top-ten of the exact table; average is (non-whitespace characters, word count); empty content gives one line, one word and average 0/1 |
| Analyzer.ExampleTheCat | script.js:63-71 | for the words `the cat the dog the`, the top list has three entries and starts with `["the", 3]` |
| Analyzer.ExampleTheCatSplit | script.js:44 | any text of the shape `a b a c a`, with single spaces between non-empty whitespace-free words, splits into `[a, b, a, c, a]` |
| Analyzer.ExampleTheCatWords | script.js:44 | `"the cat the dog the".split(/\s+/)` is `["the", "cat", "the", "dog", "the"]` |
| Analyzer.AnalyzeExample | script.js:42-61 | `analisarConteudo("the cat the dog the")` has five words, three distinct words, a top list of three entries headed by `["the", 3]`, and average 15/5 |
| Routing.StartsWith | script.js:21 | the character-by-character `startsWith` holds exactly when the pattern is a prefix of the string |
| Routing.Classify | script.js:21-30 | text iff the type starts with `text/`, image iff it starts with `image/`, PDF iff it is `application/pdf`, unsupported iff none of these; the tests are mutually exclusive, so their order does not matter |
| Routing.ReadModeFor | script.js:33-39 | text is read as text iff the type has the `text/` prefix, as a data URL iff `image/`, as an array buffer iff it is `application/pdf`, and not at all iff none of these |
| Routing.ReadModeMatchesRoute | script.js:33-39 | the read call agrees with the handler: text as text, image as data URL, PDF as array buffer, and an unsupported type is never read |
| Routing.Dispatch | script.js:13-39 | the page does nothing exactly when the type is unsupported; otherwise the loaded content goes to the route `Classify` picks; it never reaches the unsupported route |

## Left out

- Browser input and output: the file input, the "no file selected" `alert`, `FileReader` and its asynchronous `onload` (script.js:1-19), and the clearing of the preview areas. The content string is a parameter of `Analyze`, and the MIME type is a parameter of `Classify`.
- Rendering: `mostrarResultados`, `mostrarImagem` and `mostrarPdf` (script.js:74-117), including the `pdfjsLib` promise chain, which is a foreign asynchronous library.
- Analyzer.MeanLength: the float division and `toFixed(2)` formatting (script.js:48-49, script.js:82) are not modelled. The average is kept as the integer numerator and denominator.
- Frequency.TopByCount: no order is promised among entries with equal counts. `Object.entries` puts integer-like keys first in ascending numeric order, so ties do not follow first occurrence. The specification's claim of first-occurrence ties is therefore not modelled. The model leaves the listing order open, so no tie order follows from it.
- Plain-object key quirks of `contagem`: inherited keys such as `"__proto__"` or `"constructor"` are not modelled. The table is an ordinary map from strings to counts.
- String lengths: JavaScript counts UTF-16 code units, while the model counts `char` values (Unicode scalar values). The two differ for characters outside the Basic Multilingual Plane.
- `IsWs` is the ECMAScript `\s` set written out. The model does not track how that set changes between engine or Unicode versions.
- The fixed-width RET record decoder and `.ret` extension routing are described in the specification but do not exist in `script.js`, so they are not modelled.
- The specification says the average is 0 only when there are no words. In the code, the empty content gives one empty word and an average of 0/1, and the `: 0` branch is never taken. The model follows the code.
- The design says an unsupported format is reported to the user. In the code no read is started for such a type (script.js:33-39), so `onload` never fires and its alert (script.js:28-29) is unreachable. The model follows the code: `Dispatch` gives `Silent` for such a type, and `Classify`'s `Unsupported` case is never dispatched.
