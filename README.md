# DirBuster Mini, modelled in Dafny

DirBuster Mini is a small directory brute-forcer. It takes a target host and
a wordlist and builds a list of candidate paths: every word, then every
`word1/word2` pair (and, at depth 3, every triple). It requests each path
against the target and reports every path that answers with a status. Found
paths are shown as `[status] url` in a colour chosen by the status. They are
also collected and written to a results file when an output file is given.

This project models the deterministic core of `dirbuster-mini.py`:

- `text.dfy` (module `Text`) holds two string helpers the scanner relies on.
  One is Python's `str.strip()`, with the full `str.isspace` character set.
  The other is the decimal rendering of a status in an f-string, with a
  parser that reads it back.
- `wordlist.dfy` (module `Wordlist`) is the line filter of `load_wordlist`.
  Each line is stripped, blank lines are dropped, and order and duplicates
  are kept.
- `paths.dfy` (module `Paths`) is `generate_incremental_paths`.
  - The method `GenerateIncrementalPaths` keeps the source's nested loops.
  - It is proved equal to the specification function `IncrementalPaths`,
    built from the cartesian `Product` of prefixes and words.
  - Lemmas give the length `n + n² + n³`, the position of every pair and
    every triple, and the depth cap.
- `target.dfy` (module `Target`) is the normalisation of the target in the
  constructor, as written and as evidently intended (see Findings).
- `report.dfy` (module `Report`) holds the status colour, the `[status] url`
  line, and the newline-joined results file.
- `scanner.dfy` (module `Scanner`) is the class `DirBusterMini`.
  - Its fields are the target, the output option, `found_paths` and the
    queue.
  - Its methods are `Record` (the handling of one response), `ProcessNext`
    (one turn of the worker loop), `Enqueue`, `Worker` and `Run`.
  - Each method is proved against specification functions over the queue's
    contents, and lemmas state what is recorded.

Two things come from outside and are parameters of `Worker` and `Run`:

- `resolve(target, path)` stands for `urljoin`.
- `check(url)` stands for the HTTP GET: the status code, or `None` when the
  request raises.

Some Python conventions are modelled explicitly:

- A status is true when it is neither `None` nor `0`.
- The output option is true when it is given and is not the empty string.

`worker` has no status filter: every response with a true status is printed
and recorded, 404 and 500 included (`Scanner.NotFoundIsRecorded`).

## Model

| member | source | states |
|---|---|---|
| Text.Strip | dirbuster-mini.py:39 | a stripped string is no longer than its input and neither starts nor ends with whitespace |
| Text.StripUnique | dirbuster-mini.py:39 | `strip()` returns exactly the infix left after cutting all leading and trailing whitespace |
| Text.StripIsTrimmedInfix | dirbuster-mini.py:39 | the stripped string is a slice of the line with only whitespace before and after it and no whitespace at either of its ends |
| Text.TrimmedInfixDropFirst | dirbuster-mini.py:39 | cutting one leading whitespace character shifts the trimmed slice and keeps its content |
| Text.TrimmedInfixDropLast | dirbuster-mini.py:39 | cutting one trailing whitespace character keeps the trimmed slice and its content |
| Text.StripEmptyIff | dirbuster-mini.py:39 | a line strips to the empty string if and only if it is all whitespace, which is when the filter drops it |
| Text.StripIdempotent | dirbuster-mini.py:39 | stripping a stripped line changes nothing |
| Text.NatToString | dirbuster-mini.py:72 | the decimal digits of a status have no leading zero and are all digits |
| Text.IntToString | dirbuster-mini.py:72 | `str(status)` is non-empty and made of digits and `-` |
| Text.NatToStringRoundTrip | dirbuster-mini.py:72 | reading the digits back gives the number |
| Text.IntToStringRoundTrip | dirbuster-mini.py:72 | parsing the rendered status gives back the status |
| Text.IntToStringInjective | dirbuster-mini.py:72 | different statuses render differently |
| Text.StartsWith | dirbuster-mini.py:22 | `str.startswith`: the prefix is an initial slice of the string; used by both normalisations |
| Wordlist.Kept | dirbuster-mini.py:39 | one line contributes at most one word |
| Wordlist.LoadWords | dirbuster-mini.py:39 | the loaded words are no more than the lines and none is empty |
| Wordlist.KeptIndices | dirbuster-mini.py:39 | the kept line numbers increase strictly and are exactly the lines that do not strip to nothing |
| Wordlist.LoadWordsSelects | dirbuster-mini.py:39 | the k-th loaded word is the stripped k-th kept line, in file order |
| Wordlist.LoadWordsStripped | dirbuster-mini.py:39 | every loaded word is non-empty and already stripped |
| Wordlist.LoadWordsAppend | dirbuster-mini.py:39 | the filter works line by line: filtering a concatenation is concatenating the filtered parts, so duplicates survive |
| Wordlist.LoadWordsSnoc | dirbuster-mini.py:39 | one more line adds what that line keeps, at the end |
| Wordlist.LoadWordsTwo | dirbuster-mini.py:39 | two lines contribute what each keeps, in order |
| Wordlist.LoadWordsThree | dirbuster-mini.py:39 | three lines contribute what each keeps, in order |
| Wordlist.LoadWordsKeepsDuplicates | dirbuster-mini.py:39 | a word given on two lines is loaded twice, and a whitespace-only line between them vanishes |
| Wordlist.StripAdmin | dirbuster-mini.py:39 | `"admin\n"` strips to `admin`: the line terminator goes |
| Wordlist.StripBlank | dirbuster-mini.py:39 | a line of spaces, a tab and a newline strips to nothing |
| Wordlist.StripLogin | dirbuster-mini.py:39 | `" login\t\n"` strips to `login`: a leading space, a trailing tab and the newline go |
| Paths.ProductLength | dirbuster-mini.py:93-95 | the nested loops produce |prefixes| * |words| entries |
| Paths.ProductSnoc | dirbuster-mini.py:93-95 | one more outer-loop word appends its row at the end |
| Paths.ProductPrefixStep | dirbuster-mini.py:93-95 | after outer iteration j+1 the list grows by the row of word j |
| Paths.ProductAppend | dirbuster-mini.py:97-101 | the product over a concatenation of first words is the concatenation of the products |
| Paths.ProductAt | dirbuster-mini.py:93-95 | entry a*n + b joins outer word a with inner word b |
| Paths.ProductMember | dirbuster-mini.py:93-95 | a string is produced if and only if it is some outer word, `/`, and some inner word |
| Paths.TriplesUpToProduct | dirbuster-mini.py:97-101 | running the first-word loop of the triple block to the end yields every triple in order |
| Paths.AppendRow | dirbuster-mini.py:94-95 | the innermost loop appends `prefix/w` for every word w, in order, after what was there |
| Paths.AppendPairs | dirbuster-mini.py:92-95 | the depth > 1 block appends all pairs, first word outermost |
| Paths.AppendTriplesOf | dirbuster-mini.py:99-101 | for one first word, the two inner loops append every `word1/word2/word3` |
| Paths.AppendTriples | dirbuster-mini.py:97-101 | the depth > 2 block appends all triples, first word outermost |
| Paths.GenerateIncrementalPaths | dirbuster-mini.py:83-103 | the loops return exactly the words, then the pairs above depth 1, then the triples above depth 2 |
| Paths.IncrementalPathsLength | dirbuster-mini.py:83-103 | n words give n, n + n², or n + n² + n³ paths depending on the depth |
| Paths.IncrementalPathsSingles | dirbuster-mini.py:88-89 | the words come first, unchanged, and at depth 1 or below nothing else is produced |
| Paths.IncrementalPathsPairAt | dirbuster-mini.py:92-95 | above depth 1, entry n + i*n + j is `words[i]/words[j]`, including i == j |
| Paths.PairsAt | dirbuster-mini.py:92-95 | entry i*n + j of the pairs is `words[i]/words[j]` |
| Paths.TriplesAt | dirbuster-mini.py:97-101 | entry (i*n + j)*n + k of the triples is `words[i]/words[j]/words[k]` |
| Paths.IncrementalPathsTripleAt | dirbuster-mini.py:97-101 | above depth 2, entry n + n² + (i*n + j)*n + k is `words[i]/words[j]/words[k]` |
| Paths.IncrementalPathsDepthCap | dirbuster-mini.py:92-101 | any depth of 3 or more produces the same list as depth 3 |
| Paths.IncrementalPathsExample | dirbuster-mini.py:83-103 | `admin`, `login` at depth 2 give the two words and then the four pairs, first word outermost |
| Paths.IncrementalPaths | dirbuster-mini.py:83-103 | the generated list: it begins with the words, in order, and is just the words at depth 1 or below; its length and every entry are stated by the lemmas above |
| Paths.Row | dirbuster-mini.py:94-95 | one innermost loop: exactly one entry per inner word; where each lands in the product, as `prefix/word`, is stated by `ProductAt` |
| Paths.Product | dirbuster-mini.py:93-95 | two nested loops, outer word outermost; its length, entries and members are stated by `ProductLength`, `ProductAt` and `ProductMember` |
| Paths.Pairs | dirbuster-mini.py:92-95 | the `depth > 1` block: every `word1/word2`, stated entry by entry by `PairsAt` |
| Paths.Triples | dirbuster-mini.py:97-101 | the `depth > 2` block: every `word1/word2/word3`, stated entry by entry by `TriplesAt` |
| Target.NormalizeTarget | dirbuster-mini.py:22 | a target starting with `http` is kept, any other gets `http://` in front; the result starts with `http` and ends with the given target |
| Target.NormalizeTargetIdempotent | dirbuster-mini.py:22 | normalising twice is normalising once |
| Target.NormalizeTargetKeepsSchemelessHost | dirbuster-mini.py:22 | the host `httpbin.org` is kept as is and has no scheme |
| Target.NormalizeTargetWithScheme | dirbuster-mini.py:22 | the corrected normalisation keeps a target exactly when it has an `http://` or `https://` scheme and otherwise puts `http://` in front, so the result always has a scheme |
| Target.NormalizeTargetWithSchemeIdempotent | dirbuster-mini.py:22 | the corrected normalisation is idempotent |
| Target.NormalizationsDiffer | dirbuster-mini.py:22 | the two normalisations differ exactly on targets that start with `http` but have no scheme |
| Report.StatusColor | dirbuster-mini.py:60-70 | 200 is green, 301/302/307/308 blue, 403 yellow, 401 magenta, every other status cyan, each as an if-and-only-if |
| Report.FoundLine | dirbuster-mini.py:72-76 | the line is `[`, the status's digits, `] `, then the URL, each at its own slice |
| Report.FoundLineBracket | dirbuster-mini.py:72-76 | the first `]` of a found line closes the status, and the status and URL are the slices around it |
| Report.FoundLineInjective | dirbuster-mini.py:72-76 | status and URL are determined by the found line |
| Report.FoundLineNoNewline | dirbuster-mini.py:76 | a found line contains a newline exactly when its URL does |
| Report.SplitJoinLines | dirbuster-mini.py:134-136 | the newline-joined results file splits back into the lines it was written from when none holds a newline |
| Report.JoinLines | dirbuster-mini.py:136 | `"\n".join`: the lines with a newline between neighbours; `SplitJoinLines` reads them back |
| Scanner.Examine | dirbuster-mini.py:59-73 | a message is printed exactly for a true status, in the status's colour, with the found line as text |
| Scanner.Recorded | dirbuster-mini.py:59-76 | a line is recorded exactly when the status is true and an output file is set, and it is the found line |
| Scanner.Truthy | dirbuster-mini.py:60 | `if status:` holds exactly when the status is neither `None` nor `0` |
| Scanner.OutputSet | dirbuster-mini.py:75 | `if self.output:` holds exactly when an output name is given and is not empty |
| Scanner.Messages | dirbuster-mini.py:55-73 | the worker prints at most one message per path |
| Scanner.FoundLines | dirbuster-mini.py:55-76 | at most one line per path is recorded, and none without an output file |
| Scanner.MessagesSnoc | dirbuster-mini.py:55-73 | trying one more path prints its message, if any, after the others |
| Scanner.FoundLinesSnoc | dirbuster-mini.py:55-76 | trying one more path records its line, if any, after the others |
| Scanner.WorkerStep | dirbuster-mini.py:55-76 | one turn of the worker moves the queue's head to the processed paths and extends the messages and found paths as the specification does |
| Scanner.FoundLinesAppend | dirbuster-mini.py:55-76 | draining two batches one after the other records the two batches' lines one after the other |
| Scanner.FoundLinesMember | dirbuster-mini.py:60-76 | with an output file, a line is recorded if and only if some path answered a true status and the line is that status and URL |
| Scanner.NotFoundIsRecorded | dirbuster-mini.py:60-76 | a path answering 404 is recorded, because there is no status filter |
| Scanner.FoundLinesAreMessages | dirbuster-mini.py:72-76 | with an output file, the recorded lines are the texts of the printed messages, one for one and in order |
| Scanner.SavedResults | dirbuster-mini.py:134-136 | a results file is produced exactly when an output file is set and something was found |
| Scanner.SavedResultsReadBack | dirbuster-mini.py:134-136 | the results file reads back line by line as the found paths |
| Scanner.DirBusterMini.constructor | dirbuster-mini.py:21-29 | the scanner starts with a target that has a scheme, the given output, nothing found and an empty queue |
| Scanner.DirBusterMini.Record | dirbuster-mini.py:59-76 | handling one response returns its message and appends the found line when there is an output file, and nothing else |
| Scanner.DirBusterMini.ProcessNext | dirbuster-mini.py:55-76 | one turn takes the head of the queue, returns its message, and appends its found line when there is an output file |
| Scanner.DirBusterMini.Enqueue | dirbuster-mini.py:116-117 | a path is put at the back of the queue |
| Scanner.DirBusterMini.Worker | dirbuster-mini.py:53-81 | the worker empties the queue and prints and records what every queued path yields, in queue order |
| Scanner.DirBusterMini.Run | dirbuster-mini.py:105-139 | run queues the depth-2 paths of the loaded words in order, drains them, and saves the found lines when there is an output file |
| Scanner.ScanRecordsEveryLivePath | dirbuster-mini.py:113-117 | with an output file, every generated path that answers with a true status is recorded, whatever the status |

## Left out

- HTTP (`requests.Session`, `check_url`, lines 30-33 and 45-51): the status of a URL is the parameter `check`, `None` standing for a raised `RequestException`. The User-Agent header and the 10-second timeout are not modelled.
- `urljoin` (line 57) is the parameter `resolve`; its URL-resolution rules are not modelled.
- Threads (lines 122-126), `queue.join`, `task_done` and `KeyboardInterrupt` (lines 81 and 128-131): one worker drains the queue in order. With several threads, `found_paths` holds the same lines in some interleaved order, and an interrupt stops the scan part-way. Neither is modelled.
- The delay between requests (lines 78-79) has no observable effect on the model's state.
- Printing: the colorama escape codes, `Style.RESET_ALL` and the `[INFO]` lines (lines 107-110, 119-120, 137, 139) are left out. The worker's coloured lines are returned as `Message` values instead of being printed.
- Reading the wordlist file (lines 38 and 41-43): the model takes the file's lines as a sequence, each ending in `\n` except perhaps the last. Opening the file, splitting it into lines (text mode turns `\r\n` and `\r` into `\n`), UTF-8 decoding with `errors='ignore'`, the missing-file error and `sys.exit` are not modelled.
- Writing the results file (lines 135-136): `Run` returns the file's content as `saved` instead of writing it.
- Paths.GenerateIncrementalPaths: it takes the loaded words as a parameter instead of calling `load_wordlist` itself. The unused `base_path` parameter is dropped, and `Run` applies `LoadWords` to the lines before calling it.
- The `wordlist`, `threads`, `delay` and `verbose` attributes (lines 23-27) only feed the left-out parts above, so the class does not carry them.
- `main` and argument parsing (lines 141-168) are left out.
- Scanner.DirBusterMini.constructor: it uses the corrected normalisation `NormalizeTargetWithScheme` (see Findings). The normalisation as written is `Target.NormalizeTarget`.

## Findings

| source | as written | input that shows it | evidently intended | confidence | as-written member | corrected member |
|---|---|---|---|---|---|---|
| dirbuster-mini.py:22 | the target is kept when it starts with the four letters `http` | the host `httpbin.org` is kept as is, with no scheme, so every URL built from it lacks one | prefix `http://` unless the target already has an `http://` or `https://` scheme | medium, not executed | Target.NormalizeTargetKeepsSchemelessHost | Target.NormalizeTargetWithScheme |
