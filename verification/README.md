# go-utils core, modelled in Dafny

This project models the core of the Go utility library `go-utils` and proves
properties of that model:

- the thread-safe containers of package `safe`: the insertion-ordered map
  (`OrderedMap`), the generic slice (`SafeSlice[T]`), the uniqueness-enforcing
  slice (`UniqueSafeSlice[T]`) and the older `interface{}` slice;
- the string-slice helpers of package `strings` and their copies in the root
  package (`utils.go`), including the one copy that means something else
  (`StringInSlice` there tests for a substring);
- the integer `Max`, `Min`, `Sum` and `Average` of package `math`;
- the asynchronous logger of package `log`: level ordering and parsing,
  `NewLogger` defaults, the level filter with its enqueue-or-drop send, the
  worker's first-in-first-out writing, `Shutdown`'s drain and the layout of an
  output line.

Each object whose methods update fields in place is a Dafny `class` with those
fields (`seq`, `map` and `set` values that the methods reassign, and a fresh
array wherever the Go code copies the contents into a new slice); the mutexes are not modelled, so each
method is one atomic step. Each mutating method is tied to a pure transition
or specification function (`SafeOrderedMap.Put`, `Seqs.RemoveAt`,
`Seqs.AppendIfAbsent`, `AsyncLog.Line`, ...) and the properties the Go tests
observe are proved about those functions as lemmas, including over whole runs
of operations (the sequential reading of the concurrency tests).

Files: `seqs.dfy` (shared sequence vocabulary), `ordered_map.dfy`,
`slice.dfy`, `unique_slice.dfy`, `legacy_slice.dfy`, `strings.dfy`,
`math.dfy`, `utils.dfy`, `log.dfy`.

## Model

| member | source | states |
|---|---|---|
| SafeOrderedMap.Empty | safe/ordered_map.go:15-20 | a new map has no keys and no mappings and satisfies the representation invariant |
| SafeOrderedMap.OrderedMap.constructor | safe/ordered_map.go:15-20 | `NewOrderedMap` yields the empty, consistent state |
| SafeOrderedMap.Put | safe/ordered_map.go:23-30 | after `Set` the key maps to the new value, other mappings are unchanged, the key set gains the key, a new key is appended to the order and a present key keeps its place; consistency is preserved |
| SafeOrderedMap.OrderedMap.Set | safe/ordered_map.go:23-30 | the object's new state is `Put` of its old state; the invariant is kept |
| SafeOrderedMap.OrderedMap.Get | safe/ordered_map.go:32-41 | `found` iff the key is mapped, and then the value is the mapped one |
| SafeOrderedMap.Remove | safe/ordered_map.go:44-57 | `Delete` on any state: the key is no longer mapped, every other mapping is kept with its value, an absent key leaves the state unchanged, and a present key disappears from the key order while every other key stays listed |
| SafeOrderedMap.RemoveProperties | safe/ordered_map.go:44-57 | deleting an absent key changes nothing; deleting a present key removes it from mapping and order, keeps every other mapping, keeps the remaining keys in relative order and shortens the order by one; consistency is preserved |
| SafeOrderedMap.OrderedMap.Delete | safe/ordered_map.go:44-57 | the scan-and-splice leaves exactly the state `Remove` describes; the invariant is kept |
| SafeOrderedMap.OrderedMap.Keys | safe/ordered_map.go:60-66 | the keys in insertion order, each once, exactly the mapped keys |
| SafeOrderedMap.OrderedMap.Values | safe/ordered_map.go:69-77 | the i-th value is the value of the i-th key |
| SafeOrderedMap.LenIsMappingCount | safe/ordered_map.go:80-84 | the key list is as long as the mapping, so `Len` counts mappings |
| SafeOrderedMap.OrderedMap.Len | safe/ordered_map.go:80-84 | the result is the number of keys and the number of mappings |
| SafeOrderedMap.RunConsistent | safe/ordered_map.go:23-57 | every sequence of `Set`/`Delete` calls keeps the representation invariant |
| SafeOrderedMap.DistinctSetsFill | safe/ordered_map_test.go:40-74 | N sets of distinct keys on a new map give N mappings with keys listed in call order |
| SafeOrderedMap.ReinsertMovesToEnd | safe/ordered_map.go:23-57 | delete then set of a key keeps the other keys' order and moves the key to the end with the new value |
| SafeGenericSlice.SafeSlice.constructor | safe/slice.go:14-16 | a new slice is empty |
| SafeGenericSlice.SafeSlice.Append | safe/slice.go:19-23 | the item is added after the old elements, which are unchanged |
| SafeGenericSlice.SafeSlice.Remove | safe/slice.go:26-35 | succeeds iff the index is in range, then cuts out exactly that element shifting the rest down; otherwise nothing changes |
| SafeGenericSlice.SafeSlice.Get | safe/slice.go:38-46 | `ok` iff the index is in range, and then the element at that index |
| SafeGenericSlice.SafeSlice.Size | safe/slice.go:49-53 | the number of elements |
| SafeGenericSlice.SafeSlice.Items | safe/slice.go:56-62 | a copy equal to the elements in order |
| SafeGenericSlice.SizeCountsAppendsAndRemoves | safe/slice_test.go:23-47 | after any run of calls the size is the initial size plus the appends minus the removes that succeeded |
| SafeGenericSlice.AppendsInOrder | safe/slice_test.go:49-67 | a run of appends leaves all appended items after the old ones, in call order |
| SafeUniqueSlice.UniqueSafeSlice.constructor | safe/unique_slice.go:15-20 | a new slice and its membership set are empty |
| SafeUniqueSlice.UniqueSafeSlice.Append | safe/unique_slice.go:23-30 | a present value changes nothing, an absent one is appended and enters the membership set; no duplicates ever |
| SafeUniqueSlice.UniqueSafeSlice.Remove | safe/unique_slice.go:33-44 | succeeds iff the index is in range, then cuts out that element and evicts its value from the membership set; otherwise nothing changes |
| SafeUniqueSlice.UniqueSafeSlice.Get | safe/unique_slice.go:47-55 | `ok` iff the index is in range, and then the element at that index |
| SafeUniqueSlice.UniqueSafeSlice.Size | safe/unique_slice.go:58-62 | the number of elements, equal to the size of the membership set |
| SafeUniqueSlice.UniqueSafeSlice.Items | safe/unique_slice.go:65-71 | a copy equal to the elements, free of duplicates |
| SafeUniqueSlice.RemovedValueCanReturn | safe/unique_slice.go:33-44 | after a removal the removed value is absent, so appending it again puts it at the end |
| Seqs.AppendIfAbsent | safe/unique_slice.go:23-30 | membership after the append, the unchanged and the appended case, and preservation of duplicate freedom |
| Seqs.CombineRepeated | safe/unique_slice_test.go:8-17 | appending the same value repeatedly to an empty unique slice leaves one copy |
| Seqs.CombineDistinctIntoEmpty | safe/unique_slice_test.go:54-62 | appending pairwise distinct values to an empty unique slice keeps them all, in order |
| Seqs.RemoveAt | safe/slice.go:26-35 | cutting out index i shortens by one and shifts the later elements down |
| Seqs.RemoveAtIsFilter | safe/ordered_map.go:50-55 | in a duplicate-free sequence, cutting out the position of a value equals filtering that value out |
| Seqs.Filter | strings/strings.go:53-64 | filtering never lengthens and leaves exactly the elements not dropped |
| Seqs.FilterIsSubsequence | strings/strings.go:58-62 | the filtered sequence keeps the original relative order |
| Seqs.CombineExclusiveProperties | strings/strings.go:36-50 | the first slice is a prefix of the result, the result holds exactly the elements of both inputs, appended elements come from the second input and duplicate freedom is kept |
| SafeLegacySlice.SafeSlice.constructor | safe/safe.go:13-17 | a new slice is empty |
| SafeLegacySlice.SafeSlice.Append | safe/safe.go:20-24 | the item is added after the old elements |
| SafeLegacySlice.SafeSlice.Get | safe/safe.go:27-34 | `ok` iff the index is in range, then that element; otherwise `nil` |
| SafeLegacySlice.SafeSlice.Remove | safe/safe.go:37-45 | succeeds iff the index is in range, then cuts out that element; otherwise nothing changes |
| SafeLegacySlice.SafeSlice.Size | safe/safe.go:48-52 | the number of elements |
| StringSets.StringInSlice | strings/strings.go:4-11 | true iff some element equals the string |
| StringSets.SubStringInSlice | strings/strings.go:14-23 | true iff the string occurs contiguously in some element; for the empty string, iff the list is non-empty |
| StringSets.EmptyOccursEverywhere | strings/strings.go:16-19 | the empty string occurs in every string |
| StringSets.ExclusiveAppend | strings/strings.go:26-33 | the slice unchanged if the string is in it, otherwise with the string appended |
| StringSets.ExclusiveCombine | strings/strings.go:36-50 | the result of the nested loops is the exclusive combine: prefix kept, union of elements, new elements from the second slice, no duplicates introduced |
| StringSets.Exclude | strings/strings.go:53-64 | the elements of the slice not in `remove`, in order, and nothing else |
| IntMath.Largest | math/math.go:4-15 | an element of the input that is at least every element |
| IntMath.Smallest | math/math.go:18-29 | an element of the input that is at most every element |
| IntMath.SmallestAtMostLargest | math/math.go:4-29 | over the same input the minimum never exceeds the maximum |
| IntMath.Max | math/math.go:4-15 | 0 for no values, otherwise the largest value |
| IntMath.Min | math/math.go:18-29 | 0 for no values, otherwise the smallest value |
| IntMath.TotalAppend | math/math.go:32-38 | one more value adds it to the sum |
| IntMath.Sum | math/math.go:32-38 | the sum of all values, 0 for none |
| IntMath.TruncDiv | math/math.go:49 | Go's integer division: magnitude rounded down, sign of the dividend |
| IntMath.TruncDivOfNegative | math/math.go:49 | truncation and Euclidean division differ on a negative dividend |
| IntMath.TotalBounds | math/math.go:41-50 | the sum lies between n times the minimum and n times the maximum |
| IntMath.AverageBetweenMinAndMax | math/math.go:41-50 | the truncated average lies between the minimum and the maximum |
| IntMath.Average | math/math.go:41-50 | 0 for no values, otherwise the sum divided by the count truncated toward zero, hence between minimum and maximum |
| Utils.Max | utils.go:5-17 | 0 for no numbers, otherwise an element at least every element |
| Utils.StringInSlice | utils.go:19-26 | true iff the string occurs as a substring of some element |
| Utils.SubstringIsNotMembership | utils.go:19-26 | the root package's test accepts an input the `strings` package's test rejects |
| Utils.MembershipImpliesSubstring | utils.go:19-26 | exact membership implies the root package's substring test |
| Utils.ExclusiveAppend | utils.go:28-35 | the slice unchanged if the string is in it, otherwise with the string appended |
| Utils.ExclusiveCombine | utils.go:37-51 | prefix kept, union of elements, no duplicates introduced |
| Utils.Exclude | utils.go:53-64 | the elements of the slice not in `remove`, in order |
| AsyncLog.LevelOrder | log/log.go:15-22 | none < Debug < Info < Error, and the order is total |
| AsyncLog.LowerAscii | log/log.go:70 | the lower-cased string has the same length, position by position |
| AsyncLog.ParseString | log/log.go:69-80 | "debug" and "error" in any case give Debug and Error, everything else Info; never the non-level |
| AsyncLog.ParseStringIgnoresCase | log/log.go:69-80 | strings differing only in letter case parse alike |
| AsyncLog.Logger.constructor | log/log.go:83-105 | defaults level Info, no colour, capacity 100, standard output; options replace each default as `NewLogger` does |
| AsyncLog.Logger.Log | log/log.go:161-173 | below the level nothing changes; with room the entry joins the back of the queue; when full it is dropped with one warning; after `Shutdown` a below-level call still does nothing |
| AsyncLog.Logger.Debug | log/log.go:146-148 | a `log` call at Debug |
| AsyncLog.Logger.Info | log/log.go:151-153 | a `log` call at Info |
| AsyncLog.Logger.Error | log/log.go:156-158 | a `log` call at Error |
| AsyncLog.TrimLeftProperties | log/log.go:140 | trimming the front keeps a suffix, removes only white space and stops at the first non-space character |
| AsyncLog.TrimRightProperties | log/log.go:140 | trimming the back keeps a prefix, removes only white space and stops at the last non-space character |
| AsyncLog.LevelString | log/log.go:25-29 | the plain tag is empty exactly for the `none` level and otherwise a five-character bracketed tag |
| AsyncLog.LevelColor | log/log.go:32-36 | the coloured tag is empty exactly for the `none` level; otherwise it is bracketed and shows the same three-letter level name as the plain tag |
| AsyncLog.Logger.WriteHead | log/log.go:126-135 | the builder holds time, tag and label |
| AsyncLog.Logger.WriteParts | log/log.go:136-139 | the builder is extended by every message part followed by one space |
| AsyncLog.Logger.Write | log/log.go:124-143 | exactly one line, `Line(entry)`, is written and the builder is reset |
| AsyncLog.PartsIsJoin | log/log.go:136-139 | the parts loop yields the parts joined by spaces plus one trailing space |
| AsyncLog.Line | log/log.go:124-143 | a written line ends with its newline, and what comes before it neither starts nor ends with white space (its closed form is `LineLayout`) |
| AsyncLog.LineLayout | log/log.go:124-143 | a line is time, space, tag, " [label]", then the space-joined parts, then a newline |
| AsyncLog.Lines | log/log.go:115-117 | one line per entry, in order |
| AsyncLog.Logger.ProcessNext | log/log.go:110-113 | the oldest queued entry, if any, is dequeued and its line written |
| AsyncLog.DrainStep | log/log.go:115-117 | writing the head of the queue preserves "lines written, then lines of the queued entries" |
| AsyncLog.DropWarning | log/log.go:171 | the warning is the fixed "Logger buffer is full, dropping log message: [" text, the message parts, then "]" and a newline |
| AsyncLog.DropWarningOneLine | log/log.go:171 | the warning is a single line whenever no message part holds a newline |
| AsyncLog.Logger.Shutdown | log/log.go:176-181 | every queued entry is written, oldest first; the queue ends empty and the logger closed |

## Left out

- Mutexes, goroutines, channels and the wait group: each method is one atomic step. Concurrent tests are covered only by their sequential reading (runs of operations).
- The non-blocking send in `log` is modelled by the current queue length. In Go, whether the buffer is full also depends on how fast the worker goroutine drains it.
- Keys and elements are assumed to have reflexive equality that never panics. Go's `comparable` also admits floating-point NaN, which is never equal to itself: a NaN key is added again on every `Set` and is never found. It also admits interface values holding unhashable dynamic types, which panic when used as map keys or compared.
- Go's slice aliasing (an `append` sharing a caller's backing array, as in `ExclusiveAppend` and `ExclusiveCombine`): slices are values here, and nil and empty slices are not distinguished (Go's `Exclude` returns nil when it keeps nothing).
- IntMath.Sum: does not model 64-bit wrap-around of Go's `int`; integers are unbounded.
- IntMath.Average: does not model 64-bit wrap-around of the running sum.
- The floating-point functions of math/math.go (`MaxFloat`, `MinFloat`, `SumFloat`, `AverageFloat`, `WeightedAverage`): floating point is outside the model.
- The packages `random`, `json` and `version`: they are not part of this model.
- SafeGenericSlice.SafeSlice.Get: on failure it returns an unspecified value of `T`, not Go's zero value, because Dafny has no zero value for a type parameter.
- SafeUniqueSlice.UniqueSafeSlice.Get: on failure it returns an unspecified value of `T`, not Go's zero value, for the same reason.
- SafeOrderedMap.OrderedMap.Get: on failure it returns an unspecified value of `V`, not Go's zero value, for the same reason.
- AsyncLog.LowerAscii: lower-cases ASCII letters only, whereas `strings.ToLower` also maps non-ASCII letters. The only non-ASCII characters Go lower-cases to ASCII letters are U+0130 (to `i`) and U+212A (to `k`). Neither occurs in "debug" or "error", and every other string parses to Info anyway, so no `ParseString` result differs.
- Strings are sequences of characters, not of bytes; substring matching is on that sequence.
- Time and formatting: an entry carries its timestamp already formatted (UTC, layout `2006/01/02 15:04:05`) and its message parts already rendered by `fmt.Sprint`. The clock is not modelled.
- The drop warning uses the message parts as `fmt.Sprint` renders them. Go's `%v` on the `[]any` prints a pointer to a struct, array, slice or map as an address rather than as `&{...}`; that difference in rendering is not modelled.
- The output writer and standard error are the sequences of lines written to them; I/O errors are not modelled.
- AsyncLog.Logger.constructor: a negative `BufferLen` makes Go panic when the channel is created; the model requires a non-negative length instead.
- After `Shutdown`, a `log` call whose entry passes the level check panics in Go, because it sends on the closed channel. The model therefore requires such an entry to be below the configured level; such calls change nothing, as in Go. A second `Shutdown` panics in Go, because it sends on the closed `done` channel, and it is excluded by a precondition.
- AsyncLog.Logger.Shutdown: the `select` in `processLogs` may write queued entries before or after it sees the shutdown signal. Either way every entry is written in order, and the model writes them in one drain.
