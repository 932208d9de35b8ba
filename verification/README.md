# domainfinder, modelled in Dafny

domainfinder looks for unregistered "domain hacks" under the `.rs` top-level
domain. It reads word lists and keeps every word that ends in `rs` and is at
least five bytes long. Each kept word becomes a candidate domain: the last two
bytes are dropped and `.rs` is appended, so `abcrs` becomes `abc.rs`. The
candidates are looked up in DNS in batches of 100. A lookup that returns no
address record marks the domain as available. At the end the available
domains are passed through `dedup()` and then `sort()`.

All of this happens inside `main` in `src/main.rs`. The model pulls out its
sequential logic:

- `candidates.dfy` (module `Candidates`): the word filter, the
  truncate-and-append step, and the flattening of the per-file lists.
- `batches.dfy` (module `Batches`): `slice::chunks(100)`.
- `resolution.dfy` (module `Resolution`): the body of each spawned task, the
  value its join handle yields, and the `for_each` that keeps the available
  domains.
- `finalize.dfy` (module `Finalize`): `Vec::dedup` and `slice::sort`.
- `pipeline.dfy` (module `Pipeline`): the class `Search`, holding what `main`
  updates in place. Those are the progress bar's position, its length and the
  `funny_domains` vector. The batch loop and the final clean-up are methods
  of this class. `Run` chains the whole run together.
- `text.dfy`, `seqs.dfy`, `wrappers.dfy`: byte strings as Rust's `str` sees
  them, sequence helpers, and `Option`.

Strings are byte sequences, because `len()`, `ends_with` and slicing in Rust
all work on bytes. The slice `result[..result.len() - 2]` panics if the
end index is out of range or splits a UTF-8 character. The model makes that
panic explicit (`PrefixSlice` returns `None`). It then proves the panic cannot
happen for any word that passed the filter (`GenerateNeverPanics`).

The DNS client is a function parameter `resolver` from a domain to a `Lookup`.
A lookup has three possible ends: an answer with some addresses, a query
error, or a panic inside the spawned task. The last one makes awaiting that task yield
a `JoinError`.

Some behaviour of the code is easy to misread:

- No step removes duplicate candidates across word lists before the lookups.
  The same word in two lists is looked up twice (`ExampleTwoLists`).
- `abcrs` becomes `abc.rs`: two bytes are dropped from the five-byte word, and
  `.rs` is appended to the remaining three (`ExampleOneList`).
- Only `dedup()` runs before `sort()`, so the final list is sorted but may
  still hold duplicates. `dedup()` removes only equal neighbours, and copies
  that were not neighbours before sorting survive (`SeparatedCopiesSurvive`,
  `NonAdjacentDuplicateSurvives`). The final list is duplicate-free when the
  candidates are (`FinalListSpec`).
- Every branch of a task calls `bar.inc(1)` once, and a task that panics
  inside the lookup reaches none of these calls. So after the batch loop,
  before `bar.finish()`, the bar's position equals the number of candidates
  exactly when no task panicked (`CompletedAll`), and it is never larger.
- Only one upstream server is used, and nothing is written to a file.

## Model

| member | source | states |
|---|---|---|
| `Candidates.Qualifies` | src/main.rs:38 | the filter: ends with "rs" and at least 5 bytes; a word that passes it can be cut two bytes from its end on a character boundary, because those two bytes are ASCII |
| `Text.EndsWith` | src/main.rs:38 | `str::ends_with`: the last bytes of the string are the suffix (`EndsWithSplit` characterises it) |
| `Text.EndsWithSplit` | src/main.rs:38 | a string ends with a suffix if and only if it is some prefix followed by that suffix |
| `Candidates.KeptWords` | src/main.rs:37-40 | a word is kept if and only if it ends with "rs" and is at least 5 bytes long; the list never grows (`KeptWordsAppend` gives the order) |
| `Candidates.KeptWordsAppend` | src/main.rs:37-40 | filtering two consecutive parts of a file keeps the words of the first part and then those of the second; with the one-line case this fixes the kept list, in file order |
| `Candidates.KeptWordsCount` | src/main.rs:38 | every copy of a qualifying word is kept and no copy of any other word is kept (multiset count) |
| `Text.IsCharBoundary` | src/main.rs:55 | `str::is_char_boundary`: a boundary lies within the string; in ASCII text every index from 0 to the length is one |
| `Text.PrefixSlice` | src/main.rs:55 | `&s[..end]` yields a prefix of length `end` that, followed by the rest, gives back `s`; it panics exactly when `end` is out of range or not on a character boundary |
| `Candidates.Candidate` | src/main.rs:55-57 | a successful transform ends with ".rs" and is one byte longer than the word; a word that passed the filter never makes the slice panic, and its domain has a label of at least 3 bytes |
| `Candidates.CandidateRoundTrip` | src/main.rs:55-57 | for a kept word the domain has the candidate shape and the word can be rebuilt from it (the label followed by "rs") |
| `Candidates.WordRoundTrip` | src/main.rs:55-57 | every name with the candidate shape is the domain of exactly the word rebuilt from it, and that word passes the filter |
| `Candidates.FileCandidatesNeverPanic` | src/main.rs:53-59 | turning a list of kept words into domains never panics |
| `Candidates.KeptCandidatesNeverPanic` | src/main.rs:38 | the filter at line 38 guarantees that the transform of its output never panics |
| `Candidates.FileCandidates` | src/main.rs:53-59 | the inner `map` over one list: when it does not panic, one domain per kept word, each ending with ".rs" (`FileCandidatesSpec` gives them position by position) |
| `Candidates.FileCandidatesSpec` | src/main.rs:53-59 | one domain per kept word, position by position |
| `Candidates.AllKept` | src/main.rs:44-48 | the kept words of all lists number exactly the logged total; a word is among them if and only if it qualifies and some list holds it |
| `Candidates.Generate` | src/main.rs:50-61 | the flattened candidates, each ending with ".rs" when no slice panics (`GenerateNeverPanics`: none does; `GenerateSpec`: count and order) |
| `Candidates.GenerateNeverPanics` | src/main.rs:50-61 | generating the candidates from any word lists never panics, so the slice bound is always valid |
| `Candidates.GenerateSpec` | src/main.rs:44-61 | the number of candidates equals the sum of the per-file kept counts, and candidate i is the domain of kept word i: flattening drops and merges nothing |
| `Candidates.GenerateMembership` | src/main.rs:38-61 | a name is a candidate if and only if it ends with ".rs", has a label of at least 3 bytes, and the word it comes from is in some list |
| `Candidates.GenerateAppend` | src/main.rs:50-61 | the candidates of two groups of lists are the candidates of the first followed by those of the second |
| `Candidates.GenerateAnyOrder` | src/main.rs:50-52 | the lists leave the hash map in no fixed order; every order of the same lists gives the same candidates with the same multiplicities |
| `Candidates.ExampleOneList` | src/main.rs:38 | the list ["abcrs", "xyrs"] gives exactly ["abc.rs"]: "xyrs" is one byte too short |
| `Candidates.ExampleTwoLists` | src/main.rs:50-61 | two lists that both hold "abcrs" give "abc.rs" twice: nothing removes duplicates across lists |
| `Batches.Chunks` | src/main.rs:78 | every batch is non-empty and holds at most 100 candidates, all but the last exactly 100, and the batches concatenate back to the candidate list |
| `Resolution.TaskResult` | src/main.rs:85-102 | a task yields its own domain if and only if the lookup answered with no address; a non-empty answer or a query error yields nothing; a join error arises exactly when the spawned task panicked |
| `Resolution.Increment` | src/main.rs:89-98 | a task advances the bar by one on every branch it reaches, by at most one, and by none only when it panicked inside the lookup |
| `Resolution.AvailableDomains` | src/main.rs:106-117 | the domains a run of tasks pushes, never more than the candidates (`AvailableMembership`, `AvailableCount` and `AvailableAppend` say which, how often and in which order) |
| `Resolution.AvailableMembership` | src/main.rs:106-117 | a domain is collected if and only if it is a candidate whose lookup found no address; failed queries and failed joins never add one |
| `Resolution.AvailableCount` | src/main.rs:106-117 | every occurrence of an available candidate is collected, and nothing else (multiset count) |
| `Resolution.AvailableAppend` | src/main.rs:78-118 | collecting over two consecutive parts of the candidate list is collecting over the first part and then over the second |
| `Resolution.Completed` | src/main.rs:89-98 | the number of increments never exceeds the number of candidates |
| `Resolution.CompletedAll` | src/main.rs:64 | the increments reach the bar's length if and only if no task panicked |
| `Resolution.CompletedAppend` | src/main.rs:78-118 | the increments over two consecutive parts add up |
| `Resolution.HarvestAppend` | src/main.rs:109-117 | walking two runs of joined results pushes the domains of the first and then those of the second |
| `Resolution.HarvestTasks` | src/main.rs:106-117 | walking the joined results of a batch, which come back in batch order, pushes exactly the batch's available domains in batch order |
| `Resolution.Harvest` | src/main.rs:109-117 | at most one domain is pushed per joined result |
| `Pipeline.Search.constructor` | src/main.rs:63-71 | the bar starts at 0 with the number of candidates as its length, and the found list starts empty |
| `Pipeline.Search.Inc` | src/main.rs:89 | `bar.inc(1)` advances the position by one |
| `Pipeline.Search.Spawn` | src/main.rs:79-103 | one task looks its domain up once, yields the classified result and advances the bar as `Increment` says |
| `Pipeline.Search.JoinAll` | src/main.rs:79-107 | one lookup per domain of the batch, in batch order; the results come back in batch order; the bar advances by the number of tasks that did not panic |
| `Pipeline.Search.Collect` | src/main.rs:108-117 | the found list grows by exactly the domains of the `Ok(Some(_))` results, in order |
| `Pipeline.Search.RunBatch` | src/main.rs:79-117 | after one batch the found list has grown by the batch's available domains in batch order |
| `Pipeline.Search.ScanAll` | src/main.rs:78-118 | every candidate is looked up exactly once, in order; the found list grows by the order-preserving subsequence of available candidates; the bar advances once per task that did not panic |
| `Pipeline.Search.Finish` | src/main.rs:122-123 | the found list is replaced by the dedup of it, sorted |
| `Finalize.Dedup` | src/main.rs:122 | `dedup()` leaves no two equal neighbours, keeps the same set of elements and the first element, and removes only copies (`DedupOfRuns` fixes the result) |
| `Finalize.DedupSplit` | src/main.rs:122 | where two lists meet at different elements, dedup of the whole is dedup of the first followed by dedup of the second: nothing but equal neighbours is merged |
| `Finalize.DedupRun` | src/main.rs:122 | a run of n >= 1 equal elements shrinks to one |
| `Finalize.DedupOfRuns` | src/main.rs:122 | any list, written as maximal runs x1 repeated n1 times, ..., xk repeated nk times with neighbouring runs different, dedups to exactly [x1, ..., xk]: one element per run, in order |
| `Finalize.SeparatedCopiesSurvive` | src/main.rs:122-123 | on any input, two copies of a name with a different name between them both survive dedup, and the sorted final list then repeats the name |
| `Finalize.DedupKeepsRunFree` | src/main.rs:122 | a list without equal neighbours is left unchanged, so dedup is idempotent |
| `Finalize.Insert` | src/main.rs:123 | inserting into a sorted list keeps it sorted and adds exactly that element |
| `Finalize.Sort` | src/main.rs:123 | `sort()` yields a sorted permutation of its input |
| `Finalize.SortedUnique` | src/main.rs:123 | two sorted permutations of the same list are equal, so any correct sort, the library's among them, gives the result of `Sort` |
| `Finalize.DedupThenSortSpec` | src/main.rs:122-123 | after dedup then sort the list is sorted, has exactly the same elements and is no longer than before |
| `Finalize.DistinctSurvives` | src/main.rs:122-123 | if no element repeats before dedup then none repeats after sort |
| `Finalize.NonAdjacentDuplicateSurvives` | src/main.rs:122-123 | for two different names a < b, dedup leaves [a, b, a] alone and sort makes it [a, a, b]: the duplicate survives |
| `Text.LexLe` | src/main.rs:123 | `Ord for str`: byte-wise lexicographic order, a prefix first (`LexLePrefix` and the four order laws below) |
| `Text.LexLePrefix` | src/main.rs:123 | a prefix of a string sorts no later than the string |
| `Text.LexLeTotal` | src/main.rs:123 | byte-wise string order is total |
| `Text.LexLeTransitive` | src/main.rs:123 | byte-wise string order is transitive |
| `Text.LexLeAntisymmetric` | src/main.rs:123 | byte-wise string order is antisymmetric |
| `Text.LexLeReflexive` | src/main.rs:123 | byte-wise string order is reflexive |
| `Pipeline.FinalListSpec` | src/main.rs:106-123 | the final list is sorted; a name is in it if and only if it is a candidate whose lookup found no address; every name in it ends with ".rs" after a label of at least 3 bytes; it is no longer than the candidate list; it has no duplicates when the candidates have none |
| `Pipeline.Run` | src/main.rs:20-123 | the whole run never panics, looks up exactly the generated candidates in order, and returns the bar's length, equal to the logged total, and its position after the batch loop, before `bar.finish()`, equal to the number of tasks that did not panic (never more than the length), and the final list equal to dedup then sort of the available candidates |

## Left out

- Reading the word lists (`glob`, `read_to_string`, the `unwrap`s on I/O) and splitting the text into lines (`par_lines`). The input is already-read lists of lines. rayon's parallel filter is modelled as an ordered sequential filter, because its `collect` keeps the line order.
- Turning file names into map keys (`src/main.rs:30-33`). Two file names that map to the same key, such as `a.txt` and `a.txt.txt`, make the second insert replace the first list. The model takes one list per key.
- The order of `HashMap::into_values`. The model takes the lists in any order, and `GenerateAnyOrder` shows that the order changes nothing but the order of the candidates.
- The DNS client: its servers, timeouts and retries. It is a function from a domain to a `Lookup`, so a domain listed twice gets the same answer both times.
- Concurrency (`tokio::spawn`, `join_all`, `Arc`). The tasks of a batch run one after another in batch order. `join_all` returns results in input order, so the collected list is the same. Interleavings of the atomic `inc` calls are not modelled.
- Progress-bar rendering, `set_message` and all logging.
- The commented-out raw-query path and the commented-out file write (`src/main.rs:125-162`).
- Rust's `usize` width. Lengths are unbounded. `len() - 2` on a word shorter than two bytes is a negative end index, which the slice rejects as the panic it would be.
- UTF-8 validity of the input. Bytes are arbitrary, and only the character-boundary check of the slice is modelled.
- Batches.Chunks: does not state the number of batches, ⌈n / 100⌉, because the division is nonlinear arithmetic. That count follows from the stated sizes and the concatenation.
- Resolution.AvailableDomains: its own contract only bounds the length. `AvailableMembership`, `AvailableCount` and `AvailableAppend` state what it collects and in which order.
- `bar.finish()` (`src/main.rs:120`) is not modelled. The position returned by `Run` is the one after the batch loop.
- Resolution.Harvest: its own contract only bounds the length. `HarvestTasks` states what it collects.
