# cpp-yandex-coursera, modelled in Dafny

The repository holds solutions to the exercises of the Yandex "Art of
Modern C++" specialisation: a red, a brown and a black belt course. This
project models the exercises whose behaviour can be stated, one Dafny
module per source file:

- **Containers.**
  - `StackVector` is a bounded vector over a fixed array.
  - `SimpleVector` is a vector that doubles its capacity.
  - `ObjectPool` hands out objects and reuses returned ones.
  - `LruCache` is a book cache bounded by memory, with least-recently-used eviction.
  - `Translator` is a two-way dictionary.
  - `Editor` (module `TextEditor`) is a text editor with a cursor and a clipboard.
- **Algorithms.**
  - `MergeSort3` is a three-way merge sort, proved on the array it sorts.
  - `PrintStats` finds demographic medians by partitioning and an order statistic.
  - `BadDomains` checks domains against a banned list by sorted reversed labels.
  - `Lexicographic` holds the `lexicographical_compare` facts that search relies on.
  - `OverflowSum` is an overflow-checked 64-bit sum.
- **Text processing.**
  - `ServerStats` counts HTTP methods and URIs and parses request lines.
  - `ExploreKeyWords` counts keywords.
  - `Ini` is an INI reader.
  - `SearchServer` builds an inverted index and answers ranked queries; both versions of the course project are modelled.
  - `ExpressionTree` evaluates and prints expression trees, with a parser that reads the printed form back.
- **Stateful services.**
  - `SecondaryIndex` is a record database with three secondary indices.
  - `TeamTasks` tracks task statuses and promotion.
  - `BudgetDesktop` is a day-by-day budget.
  - `CommentServer` is a comment server with a spam ban and a captcha.
  - `Pipeline` is an e-mail pipeline of linked workers.
  - `Shapes` draws clipped, textured shapes.
  - `JsonPrinter` is a streaming JSON printer.
- **The transit guide.**
  - `Transit` holds what versions A, C and E share.
  - `TransitA`, `TransitC` and `TransitE` model those versions.
  - `Json` is the JSON reader of version D.

`Wrappers` (Option and Result), `Decimal` (integer rendering and parsing)
and `Strings` (the `find` family and sequence reversal) are shared helpers.

Each exercise keeps its own form:
- State the source updates in place is a class whose methods carry `modifies` clauses.
- Pure code is functions.
- Loops are methods with invariants, proved against specification functions.
- Lemmas state what the exercise promises: round trips, preserved invariants, first/last-write-wins and ordering.
- The course's own unit tests, stated as lemmas about the model.

## Model

| member | source | states |
|---|---|---|
| OverflowSum.Wrap | cpp-yandex-05-black/week_1/overflow_sum/overflow_sum.cpp:9 | the result is congruent to the argument modulo 2^64, the two's-complement wrap-around of `int64_t` subtraction |
| OverflowSum.AsWrittenMissesMinPlusMin | cpp-yandex-05-black/week_1/overflow_sum/overflow_sum.cpp:11-13 | at a = b = INT64_MIN the true sum is below INT64_MIN, yet the function as written reports no overflow and prints "0" |
| OverflowSum.Sum | cpp-yandex-05-black/week_1/overflow_sum/overflow_sum.cpp:6-24 | "Overflow!" exactly when a+b leaves the int64 range; otherwise the text reads back as a+b; mixed signs or a zero operand never report overflow |
| OverflowSum.OverflowTestElsewhere | cpp-yandex-05-black/week_1/overflow_sum/overflow_sum.cpp:7-14 | on every input but a = b = INT64_MIN the source's wrapped test is true iff the mathematical sum leaves the int64 range |
| OverflowSum.AsWrittenAgreesElsewhere | cpp-yandex-05-black/week_1/overflow_sum/overflow_sum.cpp:6-24 | on every input but a = b = INT64_MIN the source's output equals the corrected `Sum` |
| StackVector.StackVector.Contents | cpp-yandex-03-red/stack_vector/stack_vector.h:32-35 | the elements between `begin()` and `end()` number exactly `size` |
| StackVector.StackVector.Empty | cpp-yandex-03-red/stack_vector/stack_vector.h:57-59 | a fresh fixed array of N cells holding no elements |
| StackVector.StackVector.New | cpp-yandex-03-red/stack_vector/stack_vector.h:11-17 | `invalid_argument` exactly when a_size > N; otherwise a vector of capacity N and size a_size |
| StackVector.StackVector.Size | cpp-yandex-03-red/stack_vector/stack_vector.h:37 | the size never exceeds N |
| StackVector.StackVector.Capacity | cpp-yandex-03-red/stack_vector/stack_vector.h:38 | the capacity is the fixed N, the array's length, and is at least the size |
| StackVector.StackVector.Get | cpp-yandex-03-red/stack_vector/stack_vector.h:25-30 | the element at the index when index < size, `invalid_argument` otherwise |
| StackVector.StackVector.Set | cpp-yandex-03-red/stack_vector/stack_vector.h:19-24 | writes the one element at index < size; otherwise `invalid_argument` and nothing changes |
| StackVector.StackVector.PushBack | cpp-yandex-03-red/stack_vector/stack_vector.h:40-46 | `overflow_error` and no change exactly when size >= N; otherwise the value is appended and the size grows by one |
| StackVector.StackVector.PopBack | cpp-yandex-03-red/stack_vector/stack_vector.h:48-55 | `underflow_error` exactly when empty; otherwise returns the former last element and drops it |
| StackVector.StackVector.PushThenPop | cpp-yandex-03-red/stack_vector/stack_vector.h:40-55 | on a vector with room, PushBack(v) then PopBack() returns v and restores size and contents |
| SimpleVector.SimpleVector.Contents | cpp-yandex-03-red/week_5/simple_vector_2/simple_vector_2.h:28-34 | `[begin(), end())` spans exactly `Size()` elements |
| SimpleVector.SimpleVector.constructor | cpp-yandex-03-red/week_5/simple_vector_2/simple_vector_2.h:12 | a default vector has size 0 and capacity 0 |
| SimpleVector.SimpleVector.Sized | cpp-yandex-03-red/week_5/simple_vector_2/simple_vector_2.h:14-18 | `SimpleVector(n)` has size = capacity = n |
| SimpleVector.SimpleVector.Size | cpp-yandex-03-red/week_5/simple_vector_2/simple_vector_2.h:36-38 | the size is at most the capacity and is the number of elements |
| SimpleVector.SimpleVector.Capacity | cpp-yandex-03-red/week_5/simple_vector_2/simple_vector_2.h:40-42 | the capacity is the storage length and at least the size |
| SimpleVector.SimpleVector.Get | cpp-yandex-03-red/week_5/simple_vector_2/simple_vector_2.h:24-26 | unchecked `operator[]`: index < size is the caller's obligation; returns that element |
| SimpleVector.SimpleVector.Set | cpp-yandex-03-red/week_5/simple_vector_2/simple_vector_2.h:24-26 | writing through `operator[]` replaces exactly the element at the index |
| SimpleVector.SimpleVector.GrownCapacity | cpp-yandex-03-red/week_5/simple_vector_2/simple_vector_2.h:46 | a full vector grows to capacity 1 from 0, else to twice its capacity; always strictly larger |
| SimpleVector.SimpleVector.PushBack | cpp-yandex-03-red/week_5/simple_vector_2/simple_vector_2.h:44-54 | the old elements are kept in order and the value appended; the capacity grows as `GrownCapacity` only when the vector was full, and `Size() <= Capacity()` is kept |
| Translator.Translator.constructor | cpp-yandex-03-red/week_4/translator/translator.cpp:30-33 | a new translator stores no words and maps nothing in either direction |
| Translator.Translator.TranslateForward | cpp-yandex-03-red/week_4/translator/translator.cpp:20-23 | the stored target of a known source word, `""` for an unknown one |
| Translator.Translator.TranslateBackward | cpp-yandex-03-red/week_4/translator/translator.cpp:25-28 | the stored source of a known target word, `""` for an unknown one |
| Translator.Translator.Add | cpp-yandex-03-red/week_4/translator/translator.cpp:11-18 | sets forward[s] = t and backward[t] = s, overwriting earlier pairs for either word; every other lookup is unchanged; right after it TranslateBackward(TranslateForward(s)) == s |
| Translator.TestSimple | cpp-yandex-03-red/week_4/translator/translator.cpp:36-44 | the test session yields "window", "stol" and `""` (the directions are independent) |
| ServerStats.TotalIncrement | cpp-yandex-03-red/week_4/server_stats/stats.cpp:22-36 | incrementing one counter of a fixed list of distinct keys raises the total of the map by exactly one |
| ServerStats.TotalUnchanged | cpp-yandex-03-red/week_4/server_stats/stats.cpp:22-36 | a counter outside the listed keys does not contribute to their total |
| ServerStats.Zeroes | cpp-yandex-03-red/week_4/server_stats/stats.cpp:5-20 | a map with exactly the listed keys, each at 0 |
| ServerStats.Stats.constructor | cpp-yandex-03-red/week_4/server_stats/stats.cpp:5-20 | the method keys are exactly GET, POST, PUT, DELETE, UNKNOWN and the URI keys exactly `/`, `/order`, `/product`, `/basket`, `/help`, `unknown`, all at 0 |
| ServerStats.Stats.AddMethod | cpp-yandex-03-red/week_4/server_stats/stats.cpp:22-28 | increments the given method when it is a key, else UNKNOWN; the key sets and the URI map are unchanged; the method total rises by exactly 1 |
| ServerStats.Stats.AddUri | cpp-yandex-03-red/week_4/server_stats/stats.cpp:30-36 | increments the given URI when it is a key, else `unknown`; the key sets and the method map are unchanged; the URI total rises by exactly 1 |
| ServerStats.Field | cpp-yandex-03-red/week_4/server_stats/stats.cpp:54-55 | `substr(0, find(' '))`: the longest space-free prefix, ending at the first space or the end |
| ServerStats.PastField | cpp-yandex-03-red/week_4/server_stats/stats.cpp:56 | what follows the first space; the whole line when there is none (`npos + 1` wraps to 0) |
| ServerStats.ParseRequest | cpp-yandex-03-red/week_4/server_stats/stats.cpp:46-66 | on a line with a non-space character, the three fields contain no space and the method is non-empty |
| ServerStats.SkipSpaces | cpp-yandex-03-red/week_4/server_stats/stats.cpp:49-52 | leading spaces end at the first non-space character, which starts the trimmed line |
| ServerStats.CutField | cpp-yandex-03-red/week_4/server_stats/stats.cpp:54-60 | a space-free word followed by a space is cut as the field, leaving what follows the space |
| ServerStats.LastField | cpp-yandex-03-red/week_4/server_stats/stats.cpp:62-63 | a space-free word followed by nothing or by a space is the whole last field |
| ServerStats.ParseWellFormed | cpp-yandex-03-red/week_4/server_stats/stats.cpp:46-66 | any number of leading spaces, then `method uri protocol` (optionally followed by a space and more) parses to exactly those three fields |
| ServerStats.ParseSingleWord | cpp-yandex-03-red/week_4/server_stats/stats.cpp:54-63 | a line with one field puts it in all three places, since no space means nothing is removed |
| ServerStats.ParseTwoWords | cpp-yandex-03-red/week_4/server_stats/stats.cpp:54-63 | with two fields the protocol repeats the URI |
| TextEditor.Editor.constructor | cpp-yandex-03-red/week_4/text_editor/text_editor.cpp:9-11 | a new editor has an empty text, the cursor at its start and an empty clipboard |
| TextEditor.Editor.Left | cpp-yandex-03-red/week_4/text_editor/text_editor.cpp:13-17 | the cursor moves one character back unless it is at the start; text and clipboard are unchanged |
| TextEditor.Editor.Right | cpp-yandex-03-red/week_4/text_editor/text_editor.cpp:19-23 | the cursor moves one character forward unless it is at the end; text and clipboard are unchanged |
| TextEditor.Editor.Insert | cpp-yandex-03-red/week_4/text_editor/text_editor.cpp:25-28 | the character is inserted before the cursor, which ends up just after it |
| TextEditor.Editor.SpanEnd | cpp-yandex-03-red/week_4/text_editor/text_editor.cpp:31-35 | the iterator loop stops `tokens` characters after the cursor or at the end of the text, whichever is first |
| TextEditor.Editor.Cut | cpp-yandex-03-red/week_4/text_editor/text_editor.cpp:30-38 | the clipboard receives up to `tokens` characters after the cursor and exactly those characters are removed from the text; the cursor stays in place |
| TextEditor.Editor.Copy | cpp-yandex-03-red/week_4/text_editor/text_editor.cpp:40-47 | the clipboard receives up to `tokens` characters after the cursor; text and cursor are unchanged |
| TextEditor.Editor.Paste | cpp-yandex-03-red/week_4/text_editor/text_editor.cpp:49-53 | the clipboard is inserted before the cursor, which moves past it; the clipboard is kept |
| TextEditor.Editor.GetText | cpp-yandex-03-red/week_4/text_editor/text_editor.cpp:55-57 | returns the text without changing anything |
| TextEditor.Editor.TypeText | cpp-yandex-03-red/week_4/text_editor/text_editor.cpp:66-70 | typing a string inserts it whole before the cursor, which moves past it |
| TextEditor.Editor.LeftTimes | cpp-yandex-03-red/week_4/text_editor/text_editor.cpp:79-81 | `n` steps left stop at the start of the text |
| TextEditor.Editor.RightTimes | cpp-yandex-03-red/week_4/text_editor/text_editor.cpp:83-85 | `n` steps right stop at the end of the text |
| TextEditor.CutThenPaste | cpp-yandex-03-red/week_4/text_editor/text_editor.cpp:30-53 | pasting right after a cut restores the text, with the cursor after the restored part |
| TextEditor.TestSwapWords | cpp-yandex-03-red/week_4/text_editor/text_editor.cpp:73-93 | the first editing session ends with the text "world, hello" |
| TextEditor.TestMisprint | cpp-yandex-03-red/week_4/text_editor/text_editor.cpp:94-106 | the second editing session turns "misprnit" into "misprint" |
| TextEditor.TestReverse | cpp-yandex-03-red/week_4/text_editor/text_editor.cpp:109-119 | inserting each character of "esreveR" and stepping back yields "Reverse" |
| TextEditor.ReverseSnoc | cpp-yandex-03-red/week_4/text_editor/text_editor.cpp:113-116 | reversing `s + [c]` puts `c` first, which is what one insert-and-step-back round does |
| TextEditor.TestNoText | cpp-yandex-03-red/week_4/text_editor/text_editor.cpp:121-134 | moving, copying, cutting and pasting on an empty text leaves it empty |
| TextEditor.TestEmptyBuffer | cpp-yandex-03-red/week_4/text_editor/text_editor.cpp:136-153 | pasting an empty clipboard, anywhere, leaves "example" unchanged |
| MergeSort3.Merge | cpp-yandex-03-red/week_5/merge_sort_3/merge_sort_3.cpp:26-35 | `std::merge` keeps every element of both inputs: the length is the sum of theirs |
| MergeSort3.MergePermutation | cpp-yandex-03-red/week_5/merge_sort_3/merge_sort_3.cpp:26-35 | a merge only interleaves: its multiset is the union of the inputs' |
| MergeSort3.MergeSorted | cpp-yandex-03-red/week_5/merge_sort_3/merge_sort_3.cpp:26-35 | merging two sorted sequences gives a sorted one whose head is one of the inputs' heads |
| MergeSort3.Batch | cpp-yandex-03-red/week_5/merge_sort_3/merge_sort_3.cpp:20 | `length / 3`: three batches fit in the range and leave fewer than three elements over |
| MergeSort3.Part | cpp-yandex-03-red/week_5/merge_sort_3/merge_sort_3.cpp:21-23 | batch i of the range holds exactly `length / 3` elements |
| MergeSort3.Tail | cpp-yandex-03-red/week_5/merge_sort_3/merge_sort_3.cpp:31-34 | the elements past `3 * (length / 3)`, which no recursive call sorts |
| MergeSort3.MergeSort3 | cpp-yandex-03-red/week_5/merge_sort_3/merge_sort_3.cpp:9-36 | the value the sort leaves in a range has the range's length (ranges below 2 are returned as they are) |
| MergeSort3.MergeSort3Permutation | cpp-yandex-03-red/week_5/merge_sort_3/merge_sort_3.cpp:9-36 | whatever the length, the sort only permutes the range |
| MergeSort3.SplitMultiset | cpp-yandex-03-red/week_5/merge_sort_3/merge_sort_3.cpp:20-23 | the three batches and the tail together hold exactly the range's elements |
| MergeSort3.SortsPowerOf3 | cpp-yandex-03-red/week_5/merge_sort_3/merge_sort_3.cpp:9-36 | when the length is a power of 3 (or below 2) the result is sorted |
| MergeSort3.PairIsNotSorted | cpp-yandex-03-red/week_5/merge_sort_3/merge_sort_3.cpp:20-35 | two elements form empty batches, so [2, 1] comes back unsorted |
| MergeSort3.TailIsNotSorted | cpp-yandex-03-red/week_5/merge_sort_3/merge_sort_3.cpp:20-35 | with four elements the fourth is merged in unsorted: [1, 2, 4, 3] is left as it is |
| MergeSort3.TestIntVector | cpp-yandex-03-red/week_5/merge_sort_3/merge_sort_3.cpp:38-42 | the nine-element test vector comes out sorted |
| MergeSort3.MergeInto | cpp-yandex-03-red/week_5/merge_sort_3/merge_sort_3.cpp:26-35 | the loop writes exactly `Merge` of the two input slices into the destination slice and nothing outside it |
| MergeSort3.MergeSort | cpp-yandex-03-red/week_5/merge_sort_3/merge_sort_3.cpp:9-36 | the range `a[lo..hi]` ends up as `MergeSort3` of its old contents; the rest of the array is untouched |
| MergeSort3.CopyRange | cpp-yandex-03-red/week_5/merge_sort_3/merge_sort_3.cpp:15-18 | `elems` is a fresh copy of the range |
| MergeSort3.SortBatches | cpp-yandex-03-red/week_5/merge_sort_3/merge_sort_3.cpp:20-23 | after the loop each of the three batches of the copy is sorted recursively, and the tail is untouched |
| MergeSort3.BatchStep | cpp-yandex-03-red/week_5/merge_sort_3/merge_sort_3.cpp:21-23 | sorting batch i in place keeps the batches before it sorted and the elements after it as they were |
| MergeSort3.MergeBatches | cpp-yandex-03-red/week_5/merge_sort_3/merge_sort_3.cpp:25-35 | the range receives the merge of (batch 0 merged with batch 1) with everything from batch 2 on |
| MergeSort3.AfterAllBatches | cpp-yandex-03-red/week_5/merge_sort_3/merge_sort_3.cpp:20-35 | the two merges over the sorted batches and the tail give exactly `MergeSort3` of the range |
| ExploreKeyWords.Merge | cpp-yandex-03-red/week_5/explore_key_words/explore_key_words.cpp:15-19 | the pointwise sum: the words of either side, each reading the sum of both counts |
| ExploreKeyWords.MergeCommutative | cpp-yandex-03-red/week_5/explore_key_words/explore_key_words.cpp:15-19 | merging is commutative on the resulting maps |
| ExploreKeyWords.MergeAssociative | cpp-yandex-03-red/week_5/explore_key_words/explore_key_words.cpp:15-19 | merging is associative on the resulting maps |
| ExploreKeyWords.MergeEmpty | cpp-yandex-03-red/week_5/explore_key_words/explore_key_words.cpp:15-19 | adding empty statistics changes nothing |
| ExploreKeyWords.Stats.constructor | cpp-yandex-03-red/week_5/explore_key_words/explore_key_words.cpp:12-13 | new statistics count nothing |
| ExploreKeyWords.Stats.AddAssign | cpp-yandex-03-red/week_5/explore_key_words/explore_key_words.cpp:15-19 | `+=` leaves the pointwise sum of the old counts and the other's |
| ExploreKeyWords.TallyMeaning | cpp-yandex-03-red/week_5/explore_key_words/explore_key_words.cpp:28-30 | exactly the key words among the tokens are added, each as often as it occurs |
| ExploreKeyWords.FieldsStep | cpp-yandex-03-red/week_5/explore_key_words/explore_key_words.cpp:26-34 | the token runs from the start to the next space (or the end), and the next one starts after that space |
| ExploreKeyWords.TallyStep | cpp-yandex-03-red/week_5/explore_key_words/explore_key_words.cpp:26-34 | counting the tokens from a start is counting the first token, then the tokens after it |
| ExploreKeyWords.LineStatsMeaning | cpp-yandex-03-red/week_5/explore_key_words/explore_key_words.cpp:22-37 | every key of a line's result is a key word with count >= 1, and each key word's count is its number of occurrences as a token after the leading spaces, between single spaces |
| ExploreKeyWords.ExploreLine | cpp-yandex-03-red/week_5/explore_key_words/explore_key_words.cpp:22-37 | the result is a fresh `Stats` holding `LineStats` of the line |
| ExploreKeyWords.CountTokens | cpp-yandex-03-red/week_5/explore_key_words/explore_key_words.cpp:24-35 | the token loop with its moving start counts exactly `LineStats` of the line |
| ExploreKeyWords.ExploreKeyWordsSingleThread | cpp-yandex-03-red/week_5/explore_key_words/explore_key_words.cpp:39-47 | the result is the `+=`-sum of `ExploreLine` over all lines, first line first |
| ExploreKeyWords.ExploredAppend | cpp-yandex-03-red/week_5/explore_key_words/explore_key_words.cpp:39-47 | the statistics of a text split in two are the sum of the halves' statistics |
| ExploreKeyWords.ExploredMeaning | cpp-yandex-03-red/week_5/explore_key_words/explore_key_words.cpp:39-47 | over any text only key words are counted, no count is negative, and each key word's count is its number of occurrences among the tokens of all lines |
| ExploreKeyWords.FieldsUnwords | cpp-yandex-03-red/week_5/explore_key_words/explore_key_words.cpp:25-35 | splitting at single spaces undoes joining with single spaces |
| ExploreKeyWords.LineTokens | cpp-yandex-03-red/week_5/explore_key_words/explore_key_words.cpp:24-35 | the tokens of words joined by single spaces are those words |
| ExploreKeyWords.TestLine1 | cpp-yandex-03-red/week_5/explore_key_words/explore_key_words.cpp:80 | the first test line counts yangle 1, rocks 1 |
| ExploreKeyWords.TestLine2 | cpp-yandex-03-red/week_5/explore_key_words/explore_key_words.cpp:81 | the second test line counts sucks 1, yangle 1 |
| ExploreKeyWords.TestLine3 | cpp-yandex-03-red/week_5/explore_key_words/explore_key_words.cpp:82 | the third test line counts yangle 1 |
| ExploreKeyWords.TestLine4 | cpp-yandex-03-red/week_5/explore_key_words/explore_key_words.cpp:83 | the fourth test line counts yangle 1, rocks 1 ("suck" is not a key word) |
| ExploreKeyWords.TestLine5 | cpp-yandex-03-red/week_5/explore_key_words/explore_key_words.cpp:84 | the fifth test line counts yangle 2: "sucks," and "rocks." carry punctuation and are not counted |
| ExploreKeyWords.TestSum | cpp-yandex-03-red/week_5/explore_key_words/explore_key_words.cpp:39-47 | five lines with those counts sum to yangle 6, rocks 2, sucks 1 |
| ExploreKeyWords.TestBasic | cpp-yandex-03-red/week_5/explore_key_words/explore_key_words.cpp:76-93 | the test text gives exactly {yangle: 6, rocks: 2, sucks: 1} |
| SearchServer.RunLengthIs | cpp-yandex-03-red/week_6/course_project_first_part/search_server.cpp:18 | a run of non-space characters ended by a space or the end of the text has its length found |
| SearchServer.WordsAfterSpaces | cpp-yandex-03-red/week_6/course_project_first_part/search_server.cpp:14 | leading spaces make no words |
| SearchServer.WordsStep | cpp-yandex-03-red/week_6/course_project_first_part/search_server.cpp:14-23 | one step of the loop: the first word runs from the first non-space to the next space or the end, and the rest is split from that space on |
| SearchServer.SplitIntoWords | cpp-yandex-03-red/week_6/course_project_first_part/search_server.cpp:11-26 | the loop over the `string_view` yields exactly `Words(line)` |
| SearchServer.WordsShape | cpp-yandex-03-red/week_6/course_project_first_part/search_server.cpp:11-26 | every word is non-empty and holds no space |
| SearchServer.WordsUnwords | cpp-yandex-03-red/week_6/course_project_first_part/search_server.cpp:11-26 | splitting words joined by single spaces gives the words back |
| SearchServer.CountMember | cpp-yandex-03-red/week_6/course_project_first_part/search_server.cpp:90-97 | a word is counted in a document exactly when it occurs there |
| SearchServer.PostingsMeaning | cpp-yandex-03-red/week_6/course_project_first_part/search_server.cpp:86-99 | a word's postings name documents by strictly ascending id, each with the positive number of times it holds the word, and every document holding the word has one |
| SearchServer.UnknownWord | cpp-yandex-03-red/week_6/course_project_first_part/search_server.cpp:101-107 | a word no document holds has no postings, so `Lookup` returns an empty list |
| SearchServer.CountForPostings | cpp-yandex-03-red/week_6/course_project_first_part/search_server.cpp:51-54 | over a word's postings, a document is counted as often as it holds the word |
| SearchServer.AddWords | cpp-yandex-03-red/week_6/course_project_first_part/search_server.cpp:90-97 | the loop over the document's words builds, from the earlier postings, the postings of the documents so far |
| SearchServer.AddWord | cpp-yandex-03-red/week_6/course_project_first_part/search_server.cpp:91-96 | a word whose last posting is this document's has it counted up; any other word gets a new posting with count 1 |
| SearchServer.AddedLast | cpp-yandex-03-red/week_6/course_project_first_part/search_server.cpp:86-97 | after `Add`, every word of the document ends with a posting for it that holds its count there |
| SearchServer.InvertedIndex.Empty | cpp-yandex-03-red/week_6/course_project_first_part/search_server.cpp:33 | a new index has no documents and every word's postings are empty |
| SearchServer.InvertedIndex.constructor | cpp-yandex-03-red/week_6/course_project_second_part/search_server.cpp:97-110 | the index built from the input lines holds them as its documents and each word's postings are the ones those documents call for |
| SearchServer.InvertedIndex.Add | cpp-yandex-03-red/week_6/course_project_first_part/search_server.cpp:86-99 | the document gets the next id and every word's postings remain the ones the documents call for |
| SearchServer.PartialSort | cpp-yandex-03-red/week_6/course_project_first_part/search_server.cpp:57-71 | `partial_sort` of the first `m` positions: a permutation whose first `m` entries are in comparator order (more hits first, then lower id) and come before all the rest |
| SearchServer.SwapInto | cpp-yandex-03-red/week_6/course_project_first_part/search_server.cpp:57-71 | swapping the best remaining entry into the next position keeps the entries and extends the ordered prefix |
| SearchServer.NonZeroMembers | cpp-yandex-03-red/week_6/course_project_first_part/search_server.cpp:74-81 | the first version writes exactly the non-zero entries of the head |
| SearchServer.NonZeroUntilZero | cpp-yandex-03-red/week_6/course_project_second_part/search_server.cpp:77-84 | on a head in comparator order the zero entries come last, so the `continue` of the first version and the `break` of the second write the same entries |
| SearchServer.AccumulatedDistinct | cpp-yandex-03-red/week_6/course_project_first_part/search_server.cpp:49-55 | the non-zero accumulated entries are pairwise distinct |
| SearchServer.RankedHead | cpp-yandex-03-red/week_6/course_project_first_part/search_server.cpp:57-81 | sorting the first `min(5, n)` accumulated entries and keeping the non-zero ones answers the query as `Ranked` describes |
| SearchServer.HeadEntries | cpp-yandex-03-red/week_6/course_project_first_part/search_server.cpp:74-81 | every entry written is a document with its hit count |
| SearchServer.HeadComplete | cpp-yandex-03-red/week_6/course_project_first_part/search_server.cpp:57-74 | a document with hits that is left out of the head comes after all five entries of a full head |
| SearchServer.WriteNonZero | cpp-yandex-03-red/week_6/course_project_first_part/search_server.cpp:74-81 | the first version's loop writes the non-zero entries of the head |
| SearchServer.WriteUntilZero | cpp-yandex-03-red/week_6/course_project_second_part/search_server.cpp:77-84 | the second version's loop writes the entries of the head up to the first zero |
| SearchServer.AccumulatedStep | cpp-yandex-03-red/week_6/course_project_first_part/search_server.cpp:50-55 | adding the counts of one more word's postings accumulates one more query word |
| SearchServer.AddCounts | cpp-yandex-03-red/week_6/course_project_first_part/search_server.cpp:51-54 | each posting's document gets its entry set to it and the posting's count added; the others are unchanged |
| SearchServer.SearchServer.constructor | cpp-yandex-03-red/week_6/course_project_second_part/search_server.cpp:26-28 | the server's index holds the input lines as documents |
| SearchServer.SearchServer.UpdateDocumentBase | cpp-yandex-03-red/week_6/course_project_first_part/search_server.cpp:32-40 | a new index with every line added replaces the old one |
| SearchServer.SearchServer.UpdateDocumentBaseSingleThread | cpp-yandex-03-red/week_6/course_project_second_part/search_server.cpp:30-33 | the index built from the input is swapped in |
| SearchServer.SearchServer.Accumulate | cpp-yandex-03-red/week_6/course_project_first_part/search_server.cpp:49-55 | `search_results` holds, per document, `(d, hits)` for the query words, or `(0, 0)` when nothing was found |
| SearchServer.SearchServer.AddWordCounts | cpp-yandex-03-red/week_6/course_project_second_part/search_server.cpp:52-57 | one query word's postings add its occurrences to the results |
| SearchServer.SearchServer.Answer | cpp-yandex-03-red/week_6/course_project_first_part/search_server.cpp:47-82 | the first version's line for one query: the query, `:` and the ranked head of up to five documents with their hit counts |
| SearchServer.SearchServer.AnswerSingleThread | cpp-yandex-03-red/week_6/course_project_second_part/search_server.cpp:46-85 | the second version's line for one query, ranked the same way |
| SearchServer.SearchServer.AddQueriesStream | cpp-yandex-03-red/week_6/course_project_first_part/search_server.cpp:42-84 | one output line per query line, each the query's answer |
| SearchServer.SearchServer.AddQueriesStreamSingleThread | cpp-yandex-03-red/week_6/course_project_second_part/search_server.cpp:41-87 | one output line per query line, each the query's answer |
| SecondaryIndex.UpperBound | cpp-yandex-04-brown/week_1/secondary_index/secondary_index.cpp:62-73 | `upper_bound`: every entry before it has a key at most `k` and the entry at it, if any, a key above `k` |
| SecondaryIndex.UpperBoundSplits | cpp-yandex-04-brown/week_1/secondary_index/secondary_index.cpp:62-73 | in a sorted index every entry from the upper bound on has a key above `k` |
| SecondaryIndex.LowerBound | cpp-yandex-04-brown/week_1/secondary_index/secondary_index.cpp:61-72 | `lower_bound`: every entry before it has a key below `k` and the entry at it, if any, a key of at least `k` |
| SecondaryIndex.LowerBoundSplits | cpp-yandex-04-brown/week_1/secondary_index/secondary_index.cpp:61-72 | in a sorted index every entry from the lower bound on has a key of at least `k` |
| SecondaryIndex.Position | cpp-yandex-04-brown/week_1/secondary_index/secondary_index.cpp:97-99 | the iterator an item keeps points at the entry for its id |
| SecondaryIndex.VisitsUnique | cpp-yandex-04-brown/week_1/secondary_index/secondary_index.cpp:63-67 | a scan that stops after the first `false` from the callback visits one determined sequence |
| SecondaryIndex.VisitsAll | cpp-yandex-04-brown/week_1/secondary_index/secondary_index.cpp:117-134 | a callback that always answers `true` visits every candidate |
| SecondaryIndex.SelectExact | cpp-yandex-04-brown/week_1/secondary_index/secondary_index.cpp:59-89 | the records a scan may visit are exactly the indexed records that match |
| SecondaryIndex.SelectSorted | cpp-yandex-04-brown/week_1/secondary_index/secondary_index.cpp:59-79 | selecting from an index sorted by a key keeps that order |
| SecondaryIndex.InsertedSorted | cpp-yandex-04-brown/week_1/secondary_index/secondary_index.cpp:32-33 | `multimap::insert` at the upper bound keeps the index sorted |
| SecondaryIndex.InsertedIndexes | cpp-yandex-04-brown/week_1/secondary_index/secondary_index.cpp:32-34 | inserting a record with a new id keeps an index referring to every stored record exactly once |
| SecondaryIndex.RemovedIndexes | cpp-yandex-04-brown/week_1/secondary_index/secondary_index.cpp:52-55 | erasing the entry of a stored id keeps an index referring to every other record exactly once |
| SecondaryIndex.RemovedSorted | cpp-yandex-04-brown/week_1/secondary_index/secondary_index.cpp:52-53 | erasing an entry keeps an index sorted |
| SecondaryIndex.Database.constructor | cpp-yandex-04-brown/week_1/secondary_index/secondary_index.cpp:102-105 | a new database stores nothing and its indices are empty |
| SecondaryIndex.Database.Put | cpp-yandex-04-brown/week_1/secondary_index/secondary_index.cpp:21-36 | `false` and no change when the id is taken; otherwise the record is stored, inserted after equal keys in the timestamp and karma indices and added to the user index, keeping every index consistent |
| SecondaryIndex.Database.GetById | cpp-yandex-04-brown/week_1/secondary_index/secondary_index.cpp:38-44 | null exactly when no record has the id; otherwise the stored record with that id |
| SecondaryIndex.Database.Erase | cpp-yandex-04-brown/week_1/secondary_index/secondary_index.cpp:46-57 | `false` and no change when the id is absent; otherwise the record leaves the map and its entry leaves each index |
| SecondaryIndex.Database.RangeBy | cpp-yandex-04-brown/week_1/secondary_index/secondary_index.cpp:59-79 | the shared range scan visits the records with the key in `[low, high]`, by ascending key, up to and including the first `false` |
| SecondaryIndex.Database.RangeByTimestamp | cpp-yandex-04-brown/week_1/secondary_index/secondary_index.cpp:59-68 | visits the records with `low <= timestamp <= high`, by ascending timestamp, stopping after the first `false` |
| SecondaryIndex.Database.RangeByKarma | cpp-yandex-04-brown/week_1/secondary_index/secondary_index.cpp:70-79 | visits the records with `low <= karma <= high`, by ascending karma, stopping after the first `false` |
| SecondaryIndex.Database.AllByUser | cpp-yandex-04-brown/week_1/secondary_index/secondary_index.cpp:81-89 | visits the user's records in the order they were put, stopping after the first `false` |
| SecondaryIndex.ScanRange | cpp-yandex-04-brown/week_1/secondary_index/secondary_index.cpp:60-68 | the range loop, with a crossed range visiting nothing: exactly the matching records, as `Visits` describes |
| SecondaryIndex.ScanSlice | cpp-yandex-04-brown/week_1/secondary_index/secondary_index.cpp:63-67 | `for (it = begin; it != end; ++it)` with the early stop visits a prefix of `[begin, end)` as `Visits` describes |
| SecondaryIndex.RangeSlice | cpp-yandex-04-brown/week_1/secondary_index/secondary_index.cpp:61-62 | in a sorted index the records in `[low, high]` are the entries from the lower bound of `low` to the upper bound of `high`, and none when those bounds cross |
| SecondaryIndex.BoundsCross | cpp-yandex-04-brown/week_1/secondary_index/secondary_index.cpp:61-63 | the lower bound of `low` lies past the upper bound of `high` if and only if some key lies strictly between `high` and `low` |
| SecondaryIndex.CrossedRangeOverruns | cpp-yandex-04-brown/week_1/secondary_index/secondary_index.cpp:71-74 | with one record of karma 5, `RangeByKarma(7, 3, …)` starts its loop at the end of the index, past the upper bound it waits for |
| SecondaryIndex.ScanUser | cpp-yandex-04-brown/week_1/secondary_index/secondary_index.cpp:83-88 | the user loop visits the user's records in index order as `Visits` describes |
| SecondaryIndex.ScanEnd | cpp-yandex-04-brown/week_1/secondary_index/secondary_index.cpp:84-88 | a scan ends after visiting a prefix of its candidates, and all of them unless the callback stopped it |
| SecondaryIndex.RangeCandidates | cpp-yandex-04-brown/week_1/secondary_index/secondary_index.cpp:59-79 | a range scan's candidates are exactly the stored records in range, in ascending key order |
| SecondaryIndex.UserCandidates | cpp-yandex-04-brown/week_1/secondary_index/secondary_index.cpp:81-89 | a user scan's candidates are exactly that user's stored records |
| SecondaryIndex.StoredAre | cpp-yandex-04-brown/week_1/secondary_index/secondary_index.cpp:93-105 | the entries of an index are exactly the stored records |
| SecondaryIndex.InsertedBelow | cpp-yandex-04-brown/week_1/secondary_index/secondary_index.cpp:32-33 | a record with a lower key is inserted before the one already there |
| SecondaryIndex.RangeBoundariesTest | cpp-yandex-04-brown/week_1/secondary_index/secondary_index.cpp:108-123 | both bounds of a karma range are inclusive: the records with karma -10 and 1000 are both counted |
| SecondaryIndex.SameUserTest | cpp-yandex-04-brown/week_1/secondary_index/secondary_index.cpp:125-137 | both records of the same user are visited |
| SecondaryIndex.ReplacementTest | cpp-yandex-04-brown/week_1/secondary_index/secondary_index.cpp:139-150 | an id erased and put again holds the new record |
| Ini.Document.constructor | cpp-yandex-04-brown/week_2/ini/ini.cpp:19-20 | a new document has no sections |
| Ini.Document.AddSection | cpp-yandex-04-brown/week_2/ini/ini.cpp:7-9 | `sections[name] = section`: creates or replaces only the section called `name` |
| Ini.Document.GetSection | cpp-yandex-04-brown/week_2/ini/ini.cpp:11-13 | the stored section for a present name; `at` throws (`Err`) exactly when the name is missing |
| Ini.Document.SectionCount | cpp-yandex-04-brown/week_2/ini/ini.cpp:15-17 | the number of distinct section names stored |
| Ini.LastNotSpace | cpp-yandex-04-brown/week_2/ini/ini.cpp:25 | `find_last_not_of(' ')`: none exactly when the line is all spaces, else the last non-space index, with only spaces after it |
| Ini.StepsSnoc | cpp-yandex-04-brown/week_2/ini/ini.cpp:24-44 | running the loop over one more line is one more turn of its body |
| Ini.StepsAppend | cpp-yandex-04-brown/week_2/ini/ini.cpp:24-44 | the loop over two blocks of lines is the loop over the first, continued over the second |
| Ini.Load | cpp-yandex-04-brown/week_2/ini/ini.cpp:19-51 | the document holds exactly the sections the line-by-line state machine (`Steps`, then storing a pending named section) produces |
| Ini.PairLines | cpp-yandex-04-brown/week_2/ini/ini.cpp:38-43 | one `key=value` line per pair |
| Ini.PairLine | cpp-yandex-04-brown/week_2/ini/ini.cpp:38-43 | a line `key=value` is split at its first `=` and sets that key of the current section, a later duplicate key overwriting |
| Ini.PairLinesLoad | cpp-yandex-04-brown/week_2/ini/ini.cpp:38-43 | a block of pair lines adds its pairs to the current section in order |
| Ini.HeaderLine | cpp-yandex-04-brown/week_2/ini/ini.cpp:31-37 | `[name]` stores the pending named section (if any) and starts the section `name` |
| Ini.RenderLoadFrom | cpp-yandex-04-brown/week_2/ini/ini.cpp:19-51 | loading well-formed sections after a pending named one stores that one, then each section, a repeated name replacing earlier contents |
| Ini.RenderLoad | cpp-yandex-04-brown/week_2/ini/ini.cpp:19-51 | `Load` reads back exactly the sections of any document written as well-formed `[name]` and `key=value` lines |
| Ini.BlankLine | cpp-yandex-04-brown/week_2/ini/ini.cpp:25-28 | a line made only of spaces (or empty) changes nothing |
| Ini.TrailingSpaces | cpp-yandex-04-brown/week_2/ini/ini.cpp:25-29 | trailing spaces are trimmed: a line with them acts like the line without |
| Ini.PairsBeforeHeader | cpp-yandex-04-brown/week_2/ini/ini.cpp:31-37 | key lines before the first header are not cleared and become part of the first named section |
| TeamTasks.StatusAt | cpp-yandex-04-brown/week_5/team_tasks/team_tasks.cpp:8-13 | the status at a position of the enumeration NEW, IN_PROGRESS, TESTING, DONE |
| TeamTasks.Next | cpp-yandex-04-brown/week_5/team_tasks/team_tasks.cpp:15-17 | the status one position further; DONE has none |
| TeamTasks.RemoveZeros | cpp-yandex-04-brown/week_5/team_tasks/team_tasks.cpp:23-31 | the result has no zero-valued entry, keeps only the input's keys and reads the same count as the input for every status |
| TeamTasks.Promotions | cpp-yandex-04-brown/week_5/team_tasks/team_tasks.cpp:54-60 | the first loop sets `updated[Next(s)] = min(remaining, before[s])` for NEW, IN_PROGRESS and TESTING, lowest first |
| TeamTasks.PromotedAll | cpp-yandex-04-brown/week_5/team_tasks/team_tasks.cpp:54-60 | after three turns the promotions into each status are `UpdatedCount`, NEW receiving none |
| TeamTasks.SettledPrefixLater | cpp-yandex-04-brown/week_5/team_tasks/team_tasks.cpp:63-69 | the second loop has not yet touched the statuses from the current one on |
| TeamTasks.Settle | cpp-yandex-04-brown/week_5/team_tasks/team_tasks.cpp:63-69 | the second loop fills `untouched` for NEW..TESTING and settles their counts; reading `updated[NEW]` inserts a zero entry |
| TeamTasks.SettleTurn | cpp-yandex-04-brown/week_5/team_tasks/team_tasks.cpp:67-68 | one turn: `untouched[s] = before[s] - updated[Next(s)]` and `tasks[s] += updated[s] - updated[Next(s)]` |
| TeamTasks.SettleUp | cpp-yandex-04-brown/week_5/team_tasks/team_tasks.cpp:68 | reading `updated[s]` inserts only NEW's zero entry |
| TeamTasks.SettleCount | cpp-yandex-04-brown/week_5/team_tasks/team_tasks.cpp:68 | the new count of a status is what it had, plus arrivals, minus departures |
| TeamTasks.SettleStep | cpp-yandex-04-brown/week_5/team_tasks/team_tasks.cpp:63-69 | what a turn reads: the count before the call and the promotions into and out of that status |
| TeamTasks.SettledCounts | cpp-yandex-04-brown/week_5/team_tasks/team_tasks.cpp:63-71 | after both loops and the DONE update the person's counts are `After`, `untouched` reads `UntouchedCount` and has no DONE entry |
| TeamTasks.TeamTasks.constructor | cpp-yandex-04-brown/week_5/team_tasks/team_tasks.cpp:79-80 | no person has tasks on record |
| TeamTasks.TeamTasks.GetPersonTasksInfo | cpp-yandex-04-brown/week_5/team_tasks/team_tasks.cpp:36-38 | the person's counts, or an error (`at` throws) exactly for an unknown person |
| TeamTasks.TeamTasks.AddNewTask | cpp-yandex-04-brown/week_5/team_tasks/team_tasks.cpp:41-43 | increments only that person's NEW count, creating the person when needed |
| TeamTasks.TeamTasks.PerformPersonTasks | cpp-yandex-04-brown/week_5/team_tasks/team_tasks.cpp:47-77 | the person's counts become `After`; the returned maps read `UpdatedCount` and `UntouchedCount`, have no zero entries and `untouched` has no DONE |
| TeamTasks.RemainingBounds | cpp-yandex-04-brown/week_5/team_tasks/team_tasks.cpp:54-60 | the remaining budget stays between 0 and `task_count`, and no status gives away more tasks than it had |
| TeamTasks.PromotionBounds | cpp-yandex-04-brown/week_5/team_tasks/team_tasks.cpp:54-68 | for s other than DONE, `untouched[s] + updated[Next(s)] == before[s]`: each task advances at most one status per call; both counts are non-negative |
| TeamTasks.PromotionTotal | cpp-yandex-04-brown/week_5/team_tasks/team_tasks.cpp:54-60 | the updated counts sum to at most `task_count`, and no count becomes negative |
| TeamTasks.PerformKeepsTotal | cpp-yandex-04-brown/week_5/team_tasks/team_tasks.cpp:63-71 | the person's total number of tasks is preserved |
| TeamTasks.SameCounts | cpp-yandex-04-brown/week_5/team_tasks/team_tasks.cpp:23-31 | two zero-free count maps that read the same everywhere are equal |
| TeamTasks.FirstPromotion | cpp-yandex-04-brown/week_5/team_tasks/team_tasks.cpp:104-111 | three NEW tasks with budget 2: two move to IN_PROGRESS, one stays NEW |
| TeamTasks.SecondPromotion | cpp-yandex-04-brown/week_5/team_tasks/team_tasks.cpp:113-118 | then one task leaves NEW and one leaves IN_PROGRESS; one stays IN_PROGRESS |
| TeamTasks.TestTeamTasks | cpp-yandex-04-brown/week_5/team_tasks/team_tasks.cpp:93-121 | the session of `main` returns exactly those maps |
| Lexicographic.LexIrreflexive | cpp-yandex-04-brown/week_5/bad_domains/bad_domains.cpp:38-43 | `lexicographical_compare` never puts a sequence before itself |
| Lexicographic.LexTransitive | cpp-yandex-04-brown/week_5/bad_domains/bad_domains.cpp:38-43 | the lexicographic order is transitive |
| Lexicographic.LexTotal | cpp-yandex-04-brown/week_5/bad_domains/bad_domains.cpp:38-43 | of two different sequences one comes first |
| Lexicographic.LexStrictTotalOrder | cpp-yandex-04-brown/week_5/bad_domains/bad_domains.cpp:38-43 | over a strict total order on elements, the lexicographic order is again one (what `sort` and `upper_bound` need) |
| Lexicographic.PrefixNotAfter | cpp-yandex-04-brown/week_5/bad_domains/bad_domains.cpp:69-73 | a prefix never comes after a sequence it starts |
| Lexicographic.PrefixBetween | cpp-yandex-04-brown/week_5/bad_domains/bad_domains.cpp:69-73 | whatever lies between a sequence and one of its extensions also extends it |
| Lexicographic.StringOrder | cpp-yandex-04-brown/week_5/bad_domains/bad_domains.cpp:38-43 | `std::string`'s `<` is a strict total order |
| BadDomains.ReversedParts | cpp-yandex-04-brown/week_5/bad_domains/bad_domains.cpp:10-22 | the loop with `emplace_front` yields the labels split at `.`, in reverse order |
| BadDomains.PartsStep | cpp-yandex-04-brown/week_5/bad_domains/bad_domains.cpp:18-19 | reading the label before the first `.` keeps the reversed-labels invariant |
| BadDomains.PartsLast | cpp-yandex-04-brown/week_5/bad_domains/bad_domains.cpp:14-17 | with no `.` left, the rest is the last label |
| BadDomains.JoinLabels | cpp-yandex-04-brown/week_5/bad_domains/bad_domains.cpp:10-22 | joining the labels with `.` gives back any text not ending in `.` |
| BadDomains.DomainOf | cpp-yandex-04-brown/week_5/bad_domains/bad_domains.cpp:26-32 | a domain has one reversed part per label of its text |
| BadDomains.SubdomainOrder | cpp-yandex-04-brown/week_5/bad_domains/bad_domains.cpp:49-57 | `IsSubdomain` is reflexive ("domain is subdomain of itself") and transitive |
| BadDomains.LabelsPair | cpp-yandex-04-brown/week_5/bad_domains/bad_domains.cpp:10-22 | a name of two dot-free labels `a.b` is held as `[b, a]` |
| BadDomains.MYaRuUnderYaRu | cpp-yandex-04-brown/week_5/bad_domains/bad_domains.cpp:49-57 | m.ya.ru lies under ya.ru |
| BadDomains.YaRuNotUnderMYaRu | cpp-yandex-04-brown/week_5/bad_domains/bad_domains.cpp:49-57 | ya.ru does not lie under m.ya.ru: a domain with fewer labels is never a subdomain |
| BadDomains.YaComNotUnderYaRu | cpp-yandex-04-brown/week_5/bad_domains/bad_domains.cpp:49-57 | ya.com does not lie under ya.ru: the top-level labels differ |
| BadDomains.DomainOrder | cpp-yandex-04-brown/week_5/bad_domains/bad_domains.cpp:38-43 | `Domain::operator<` is irreflexive, transitive and total |
| BadDomains.Insert | cpp-yandex-04-brown/week_5/bad_domains/bad_domains.cpp:64 | insertion into the sorted list adds exactly that one domain |
| BadDomains.Sort | cpp-yandex-04-brown/week_5/bad_domains/bad_domains.cpp:64 | `sort` only permutes the banned domains |
| BadDomains.InsertSorted | cpp-yandex-04-brown/week_5/bad_domains/bad_domains.cpp:64 | inserting into a sorted list keeps it sorted |
| BadDomains.SortSorted | cpp-yandex-04-brown/week_5/bad_domains/bad_domains.cpp:64 | after `sort` the domains are in ascending order |
| BadDomains.NoneAbsorbedSnoc | cpp-yandex-04-brown/week_5/bad_domains/bad_domains.cpp:78-88 | appending a domain that is not a subdomain of the last kept one keeps "none absorbed" |
| BadDomains.AbsorbSubdomains | cpp-yandex-04-brown/week_5/bad_domains/bad_domains.cpp:78-88 | `unique` keeps an order-preserving selection of the input in which no domain is a subdomain of the one kept before it, and every input is a subdomain of some kept domain |
| BadDomains.AbsorbTurn | cpp-yandex-04-brown/week_5/bad_domains/bad_domains.cpp:79-86 | one step of `unique`: keep the domain unless the last kept one covers it |
| BadDomains.KeepStep | cpp-yandex-04-brown/week_5/bad_domains/bad_domains.cpp:79-86 | a kept domain covers itself and does not absorb into the previous one |
| BadDomains.SkipStep | cpp-yandex-04-brown/week_5/bad_domains/bad_domains.cpp:79-86 | a dropped domain is covered by the last kept one |
| BadDomains.KeptSorted | cpp-yandex-04-brown/week_5/bad_domains/bad_domains.cpp:61-66 | what `unique` keeps of a sorted list is still sorted |
| BadDomains.NoneNested | cpp-yandex-04-brown/week_5/bad_domains/bad_domains.cpp:61-66 | in the kept list no domain is a subdomain of any earlier one, not just of its neighbour |
| BadDomains.UpperBound | cpp-yandex-04-brown/week_5/bad_domains/bad_domains.cpp:70 | `upper_bound`: every domain before the result is not after the candidate, the one at it is |
| BadDomains.BeforeBound | cpp-yandex-04-brown/week_5/bad_domains/bad_domains.cpp:69-73 | a kept domain covering the candidate lies before the upper bound |
| BadDomains.CoveredComplete | cpp-yandex-04-brown/week_5/bad_domains/bad_domains.cpp:69-73 | if some kept domain covers the candidate, the one just before the upper bound does |
| BadDomains.CoveredIffBanned | cpp-yandex-04-brown/week_5/bad_domains/bad_domains.cpp:69-73 | checking only the predecessor of `upper_bound` answers exactly "is the candidate a subdomain of some banned domain" |
| BadDomains.IndexOf | cpp-yandex-04-brown/week_5/bad_domains/bad_domains.cpp:64 | a position holding the domain |
| BadDomains.Origins | cpp-yandex-04-brown/week_5/bad_domains/bad_domains.cpp:61-66 | every kept domain is one of the banned domains |
| BadDomains.Owners | cpp-yandex-04-brown/week_5/bad_domains/bad_domains.cpp:61-66 | every banned domain lies under some kept domain |
| BadDomains.AbsorbedKeeps | cpp-yandex-04-brown/week_5/bad_domains/bad_domains.cpp:61-66 | sort then absorb leaves a sorted, non-absorbing list of banned domains that covers every banned one |
| BadDomains.DomainChecker.constructor | cpp-yandex-04-brown/week_5/bad_domains/bad_domains.cpp:61-66 | after construction `domains_` is sorted, no domain is a subdomain of the kept one before it, and it covers exactly the banned domains |
| BadDomains.DomainChecker.IsSubdomain | cpp-yandex-04-brown/week_5/bad_domains/bad_domains.cpp:69-73 | true iff the candidate is a banned domain or a subdomain of one |
| BadDomains.CheckDomains | cpp-yandex-04-brown/week_5/bad_domains/bad_domains.cpp:107-115 | one result per input, in input order, each `!IsSubdomain` of that input |
| PrintStats.FilterPermutation | cpp-yandex-04-brown/week_5/demographic_stats/print_stats.cpp:36-50 | which persons a predicate keeps, counted with multiplicity, does not depend on their order |
| PrintStats.AgesPermutation | cpp-yandex-04-brown/week_5/demographic_stats/print_stats.cpp:24-32 | the ages of a group, as a multiset, do not depend on the order of its persons |
| PrintStats.SortAges | cpp-yandex-04-brown/week_5/demographic_stats/print_stats.cpp:26-31 | the ages sorted keep every age with its multiplicity |
| PrintStats.SortAscending | cpp-yandex-04-brown/week_5/demographic_stats/print_stats.cpp:26-31 | the ages sorted are in ascending order |
| PrintStats.AscendingUnique | cpp-yandex-04-brown/week_5/demographic_stats/print_stats.cpp:26-31 | two ascending arrangements of the same ages are equal, so the element `nth_element` puts in the middle is determined |
| PrintStats.MedianIsOrderStatistic | cpp-yandex-04-brown/week_5/demographic_stats/print_stats.cpp:20-33 | for a non-empty group the median age is one of its ages, with at most `n / 2` ages below it and more than `n / 2` at or below it |
| PrintStats.OrderStatisticUnique | cpp-yandex-04-brown/week_5/demographic_stats/print_stats.cpp:25-32 | in ascending order only the element at `k` has at most `k` values below it and more than `k` at or below it |
| PrintStats.MedianCharacterised | cpp-yandex-04-brown/week_5/demographic_stats/print_stats.cpp:20-33 | a value is the median age of a non-empty group if and only if at most `n / 2` ages lie below it and more than `n / 2` at or below it |
| PrintStats.MedianPermutation | cpp-yandex-04-brown/week_5/demographic_stats/print_stats.cpp:20-33 | the median age does not depend on the order of the persons |
| PrintStats.MedianFromCounts | cpp-yandex-04-brown/week_5/demographic_stats/print_stats.cpp:20-33 | a group's median follows from the counts of its ages around a value |
| PrintStats.Partition | cpp-yandex-04-brown/week_5/demographic_stats/print_stats.cpp:36-50 | `partition` on a segment puts the persons that pass first, returns where the others start, keeps the segment's persons and leaves the rest of the array alone |
| PrintStats.SwapMultiset | cpp-yandex-04-brown/week_5/demographic_stats/print_stats.cpp:36-50 | exchanging two persons inside a segment keeps the segment's persons and everything outside it |
| PrintStats.Report | cpp-yandex-04-brown/week_5/demographic_stats/print_stats.cpp:52-65 | seven medians are reported, one per line |
| PrintStats.SegmentMedian | cpp-yandex-04-brown/week_5/demographic_stats/print_stats.cpp:52-65 | when exactly a segment of the arrangement passes a predicate, its median is the median of the persons that pass |
| PrintStats.FilterSegment | cpp-yandex-04-brown/week_5/demographic_stats/print_stats.cpp:52-65 | when exactly a segment passes, filtering keeps that segment |
| PrintStats.Arrange | cpp-yandex-04-brown/week_5/demographic_stats/print_stats.cpp:36-50 | the three partitions keep the persons and leave employed females, unemployed females, employed males, unemployed males, in that order, with the three boundaries returned |
| PrintStats.PartitionByEmployment | cpp-yandex-04-brown/week_5/demographic_stats/print_stats.cpp:41-50 | the second and third partitions put the employed first within each gender and keep the gender split |
| PrintStats.GenderKept | cpp-yandex-04-brown/week_5/demographic_stats/print_stats.cpp:46-50 | the third partition keeps the persons and the gender split the first one made |
| PrintStats.FemalesKept | cpp-yandex-04-brown/week_5/demographic_stats/print_stats.cpp:46-50 | the third partition leaves the females, and their employment order, as the second one left them |
| PrintStats.GenderMedians | cpp-yandex-04-brown/week_5/demographic_stats/print_stats.cpp:52-57 | over the arrangement, the whole, the female and the male medians are those of all persons, the females and the males |
| PrintStats.FemaleMedians | cpp-yandex-04-brown/week_5/demographic_stats/print_stats.cpp:58-61 | the employed and unemployed female segments have the medians of those groups |
| PrintStats.MaleMedians | cpp-yandex-04-brown/week_5/demographic_stats/print_stats.cpp:62-65 | the employed and unemployed male segments have the medians of those groups |
| PrintStats.ComputeStats | cpp-yandex-04-brown/week_5/demographic_stats/print_stats.cpp:35-66 | the seven numbers `PrintStats` prints are the medians of all persons, females, males, employed females, unemployed females, employed males and unemployed males, whatever the input order |
| PrintStats.SampleAll | cpp-yandex-04-brown/week_5/demographic_stats/print_stats.cpp:52-79 | for the persons of `main` the overall median age is 40 |
| PrintStats.SampleFemales | cpp-yandex-04-brown/week_5/demographic_stats/print_stats.cpp:54-79 | the female median of the sample is 40 |
| PrintStats.SampleMales | cpp-yandex-04-brown/week_5/demographic_stats/print_stats.cpp:56-79 | the male median of the sample is 55 |
| PrintStats.SampleEmployedFemales | cpp-yandex-04-brown/week_5/demographic_stats/print_stats.cpp:58-79 | the employed-female median of the sample is 40 |
| PrintStats.SampleUnemployedFemales | cpp-yandex-04-brown/week_5/demographic_stats/print_stats.cpp:60-79 | the unemployed-female median of the sample is 80 |
| PrintStats.SampleEmployedMales | cpp-yandex-04-brown/week_5/demographic_stats/print_stats.cpp:62-79 | the employed-male median of the sample is 55 |
| PrintStats.SampleUnemployedMales | cpp-yandex-04-brown/week_5/demographic_stats/print_stats.cpp:64-79 | the unemployed-male median of the sample is 78 |
| PrintStats.SampleReport | cpp-yandex-04-brown/week_5/demographic_stats/print_stats.cpp:68-80 | the program prints 40, 40, 55, 40, 80, 55, 78 for its sample |
| BudgetDesktop.DateOrder | cpp-yandex-04-brown/week_5/budget_desktop/budget_desktop.cpp:34-47 | the three comparisons agree: `>` is `<` turned around, `==` is equality, and exactly one of them holds |
| BudgetDesktop.LessTransitive | cpp-yandex-04-brown/week_5/budget_desktop/budget_desktop.cpp:34-37 | `<` on dates is transitive |
| BudgetDesktop.LessTransitiveOrSame | cpp-yandex-04-brown/week_5/budget_desktop/budget_desktop.cpp:34-37 | not-less-than on dates is transitive |
| BudgetDesktop.IntersectsWithin | cpp-yandex-04-brown/week_5/budget_desktop/budget_desktop.cpp:101-111 | a date lies in both ranges if and only if there is an intersection and the date lies in it |
| BudgetDesktop.IntersectsNone | cpp-yandex-04-brown/week_5/budget_desktop/budget_desktop.cpp:101-111 | two proper ranges have no intersection if and only if no date lies in both |
| BudgetDesktop.GetDaysSymmetric | cpp-yandex-04-brown/week_5/budget_desktop/budget_desktop.cpp:77-84 | the day count does not depend on the order of the two dates |
| BudgetDesktop.GetDaysEnds | cpp-yandex-04-brown/week_5/budget_desktop/budget_desktop.cpp:77-99 | a date alone counts one day and a missing range none |
| BudgetDesktop.GetDaysCounts | cpp-yandex-04-brown/week_5/budget_desktop/budget_desktop.cpp:77-84 | with timestamps a whole number `k` of days apart, the count is `k + 1`: both ends are counted |
| BudgetDesktop.IndexSpan | cpp-yandex-04-brown/week_5/budget_desktop/budget_desktop.cpp:86-92 | for dates from 2000-01-01 on, the indices of a range's ends are `RangeDays - 1` apart |
| BudgetDesktop.IncomeAfterEarnSpend | cpp-yandex-04-brown/week_5/budget_desktop/budget_desktop.cpp:134-160 | earning `per` a day over one range raises the income of any range by `per` for each shared day, and spending lowers it the same way |
| BudgetDesktop.OverlapSelf | cpp-yandex-04-brown/week_5/budget_desktop/budget_desktop.cpp:138-156 | every day of a range lies in it |
| BudgetDesktop.EarnThenIncome | cpp-yandex-04-brown/week_5/budget_desktop/budget_desktop.cpp:134-160 | earning `money` over a range of days and asking for the income of that range finds exactly `money` more |
| BudgetDesktop.EarnRangeThenIncome | cpp-yandex-04-brown/week_5/budget_desktop/budget_desktop.cpp:134-160 | what `Earn` spreads over a range of dates is found again, in full, by `ComputeIncome` over that range |
| BudgetDesktop.IncomeAfterTax | cpp-yandex-04-brown/week_5/budget_desktop/budget_desktop.cpp:152-171 | paying tax at `percentage` lowers the income of the range by that share of what was earned there; spending is not taxed |
| BudgetDesktop.IncomeSameDays | cpp-yandex-04-brown/week_5/budget_desktop/budget_desktop.cpp:152-160 | the income of a range depends only on its days |
| BudgetDesktop.BudgetManager.constructor | cpp-yandex-04-brown/week_5/budget_desktop/budget_desktop.cpp:130-132 | a new manager keeps 36600 days, all with nothing earned or spent |
| BudgetDesktop.BudgetManager.Earn | cpp-yandex-04-brown/week_5/budget_desktop/budget_desktop.cpp:134-141 | the money spread evenly over the range's days is added to what was earned on each; no other day and nothing spent changes |
| BudgetDesktop.BudgetManager.Spend | cpp-yandex-04-brown/week_5/budget_desktop/budget_desktop.cpp:143-150 | the money spread evenly over the range's days is added to what was spent on each; nothing else changes |
| BudgetDesktop.BudgetManager.ComputeIncome | cpp-yandex-04-brown/week_5/budget_desktop/budget_desktop.cpp:152-160 | the result is what was earned less what was spent over the range's days, and nothing changes |
| BudgetDesktop.BudgetManager.PayTax | cpp-yandex-04-brown/week_5/budget_desktop/budget_desktop.cpp:162-171 | what was earned on each day of the range is scaled by `1 - percentage / 100`; what was spent, and every other day, is kept |
| ExpressionTree.Sum | cpp-yandex-04-brown/week_3/expression_tree/Common.cpp:89-91 | the factory builds a `+` node with its children in argument order |
| ExpressionTree.Product | cpp-yandex-04-brown/week_3/expression_tree/Common.cpp:92-94 | the factory builds a `*` node with its children in argument order |
| ExpressionTree.Evaluate | cpp-yandex-04-brown/week_3/expression_tree/Common.cpp:14-36 | a constant evaluates to its value and a node to `Process` of its two children's values (`+` for a sum, `*` for a product); the result is never larger in absolute value than the same tree evaluated with every constant made non-negative |
| ExpressionTree.ToString | cpp-yandex-04-brown/week_3/expression_tree/Common.cpp:18-40 | a constant prints as `to_string` of its value and a node as `(l)op(r)`; a node's text starts with `(` and ends with `)`, a number's does neither |
| ExpressionTree.PostfixEvaluates | cpp-yandex-04-brown/week_3/expression_tree/Common.cpp:14-36 | a stack machine running the tree's postfix code, an evaluation independent of `Evaluate`, pushes exactly the tree's `Evaluate` value, whatever code follows and whatever lies below on the stack |
| ExpressionTree.StackMachineAgrees | cpp-yandex-04-brown/week_3/expression_tree/Common.cpp:14-36 | run on an empty stack, the postfix code leaves exactly one value, the tree's `Evaluate` value |
| ExpressionTree.SampleExpression | cpp-yandex-04-brown/week_3/expression_tree/Common.cpp:85-94 | Sum(Product(Value(2), Value(3)), Value(4)) evaluates to 10 and prints as `((2)*(3))+(4)` |
| ExpressionTree.DepthAppend | cpp-yandex-04-brown/week_3/expression_tree/Common.cpp:38-40 | the parenthesis depth of a concatenation is the sum of the depths |
| ExpressionTree.NestedAppend | cpp-yandex-04-brown/week_3/expression_tree/Common.cpp:38-40 | concatenating well-nested texts keeps them well nested |
| ExpressionTree.NumberHasNoParens | cpp-yandex-04-brown/week_3/expression_tree/Common.cpp:18-20 | `to_string` of an integer contains no parenthesis |
| ExpressionTree.ToStringBalanced | cpp-yandex-04-brown/week_3/expression_tree/Common.cpp:18-40 | every rendering `(l)op(r)` is balanced and never closes a parenthesis it did not open |
| ExpressionTree.BalancedBinary | cpp-yandex-04-brown/week_3/expression_tree/Common.cpp:38-40 | `(ls)o(rs)` is balanced when `ls` and `rs` are and `o` is `+` or `*` |
| ExpressionTree.NestedInside | cpp-yandex-04-brown/week_3/expression_tree/Common.cpp:38-40 | a balanced text wrapped in one pair of parentheses is balanced |
| ExpressionTree.Close | cpp-yandex-04-brown/week_3/expression_tree/Common.cpp:38-40 | the index found holds the `)` that closes the current depth |
| ExpressionTree.CloseSkips | cpp-yandex-04-brown/week_3/expression_tree/Common.cpp:38-40 | the search for the closing `)` passes over any well-nested text |
| ExpressionTree.ParseToString | cpp-yandex-04-brown/week_3/expression_tree/Common.cpp:18-40 | the printed form reads back as the same tree: `ToString` loses nothing |
| ExpressionTree.ParseNumber | cpp-yandex-04-brown/week_3/expression_tree/Common.cpp:18-20 | a printed integer reads back as that `Value` |
| ExpressionTree.ParseBinary | cpp-yandex-04-brown/week_3/expression_tree/Common.cpp:38-40 | `(ls)o(rs)` reads back from the trees of `ls` and `rs` |
| ExpressionTree.CloseAfter | cpp-yandex-04-brown/week_3/expression_tree/Common.cpp:38-40 | in `(ls)…` the `)` right after a balanced `ls` is the closing one |
| ExpressionTree.ToStringInjective | cpp-yandex-04-brown/week_3/expression_tree/Common.cpp:18-40 | two trees with the same rendering are the same tree |
| ObjectPool.ObjectPool.constructor | cpp-yandex-04-brown/week_3/object_pool/object_pool.cpp:61-63 | a new pool has no object in use and none free |
| ObjectPool.ObjectPool.Allocate | cpp-yandex-04-brown/week_3/object_pool/object_pool.cpp:14-25 | the oldest free object is reused, or a new one not in use is created when none is free; it joins the objects in use |
| ObjectPool.ObjectPool.TryAllocate | cpp-yandex-04-brown/week_3/object_pool/object_pool.cpp:27-35 | null exactly when no object is free, and then nothing changes; otherwise the oldest free object moves into use |
| ObjectPool.ObjectPool.Deallocate | cpp-yandex-04-brown/week_3/object_pool/object_pool.cpp:37-44 | `invalid_argument` exactly when the object is not in use, and then nothing changes; otherwise it leaves the objects in use and joins the back of the free queue |
| ObjectPool.TestObjectPool | cpp-yandex-04-brown/week_3/object_pool/object_pool.cpp:66-86 | freed objects come back in the order they were freed: "second", then "third", then "first", all distinct |
| LruCache.SizeAppend | cpp-yandex-04-brown/week_4/cache/Solution.cpp:41-52 | the total content size of two runs of entries is the sum of their sizes |
| LruCache.SizeWithout | cpp-yandex-04-brown/week_4/cache/Solution.cpp:26-28 | removing one entry lowers the total size by that book's content size |
| LruCache.IndexOf | cpp-yandex-04-brown/week_4/cache/Solution.cpp:22-32 | -1 exactly when no cached book has the name; otherwise the first entry, in ascending rank, whose book has it |
| LruCache.Evicted | cpp-yandex-04-brown/week_4/cache/Solution.cpp:41-44 | never more than the entries there are |
| LruCache.EvictedFits | cpp-yandex-04-brown/week_4/cache/Solution.cpp:41-44 | after the eviction the rest plus the new book fits in `max_memory`, and no shorter eviction would have made it fit |
| LruCache.AccessFits | cpp-yandex-04-brown/week_4/cache/Solution.cpp:19-55 | after any `GetBook` the cached contents still fit in `max_memory` |
| LruCache.AccessKeepsOrder | cpp-yandex-04-brown/week_4/cache/Solution.cpp:19-55 | after any `GetBook` ranks stay strictly ascending and no book is cached twice |
| LruCache.SnocKeepsOrder | cpp-yandex-04-brown/week_4/cache/Solution.cpp:46-51 | adding a new book above the highest rank keeps ranks ascending and names distinct |
| LruCache.WithoutKeepsOrder | cpp-yandex-04-brown/week_4/cache/Solution.cpp:26 | extracting one entry keeps the rest ordered and removes that name |
| LruCache.SuffixKeepsOrder | cpp-yandex-04-brown/week_4/cache/Solution.cpp:41-44 | erasing the lowest ranks keeps the rest ordered |
| LruCache.AccessMostRecent | cpp-yandex-04-brown/week_4/cache/Solution.cpp:24-51 | the book just asked for holds the highest rank, unless it was too large to cache |
| LruCache.LruCache.constructor | cpp-yandex-04-brown/week_4/cache/Solution.cpp:11-17 | a new cache is empty and keeps the unpacker and memory limit it is given |
| LruCache.LruCache.Find | cpp-yandex-04-brown/week_4/cache/Solution.cpp:22-23 | the loop over the cache finds the index `IndexOf` describes |
| LruCache.LruCache.Evict | cpp-yandex-04-brown/week_4/cache/Solution.cpp:41-44 | the loop drops exactly `Evicted` lowest-rank entries, after which the new book fits |
| LruCache.LruCache.Promote | cpp-yandex-04-brown/week_4/cache/Solution.cpp:24-29 | a hit moves the book above the highest rank unless it already holds it, keeping every invariant |
| LruCache.LruCache.Admit | cpp-yandex-04-brown/week_4/cache/Solution.cpp:41-52 | a miss that fits evicts, then caches the book on top, keeping size and order invariants |
| LruCache.LruCache.GetBook | cpp-yandex-04-brown/week_4/cache/Solution.cpp:19-55 | returns the cached book on a hit and the unpacked one on a miss; the new cache is `Access` of the old one |
| Shapes.DrawnClipped | cpp-yandex-04-brown/week_4/shapes/Solution.cpp:40-46 | `Draw` writes only pixels inside both the shape's box and the image |
| Shapes.RectangleFills | cpp-yandex-04-brown/week_4/shapes/Solution.cpp:45-81 | a rectangle writes every pixel of its box that lies in the image |
| Shapes.TextureKeepsFootprint | cpp-yandex-04-brown/week_4/shapes/Solution.cpp:45-58 | a texture changes which characters are written, never which pixels: the same shape without a texture writes `'.'` at exactly the pixels the textured one writes |
| Shapes.CoveringTexture | cpp-yandex-04-brown/week_4/shapes/Solution.cpp:48-58 | when the texture is at least as large as the shape, every character the shape writes is one of the texture's |
| Shapes.Shape.constructor | cpp-yandex-04-brown/week_4/shapes/Solution.cpp:98-105 | `MakeShape` gives a shape of the requested kind with no texture |
| Shapes.Shape.SetPosition | cpp-yandex-04-brown/week_4/shapes/Solution.cpp:11-17 | `GetPosition` then returns the position set; nothing else changes |
| Shapes.Shape.SetSize | cpp-yandex-04-brown/week_4/shapes/Solution.cpp:19-25 | `GetSize` then returns the size set; nothing else changes |
| Shapes.Shape.SetTexture | cpp-yandex-04-brown/week_4/shapes/Solution.cpp:27-33 | `GetTexture` then returns the texture set; nothing else changes |
| Shapes.Shape.Clone | cpp-yandex-04-brown/week_4/shapes/Solution.cpp:74-88 | a new shape with the same kind, position, size and texture |
| Shapes.Shape.Draw | cpp-yandex-04-brown/week_4/shapes/Solution.cpp:35-62 | an empty image is left alone; otherwise every pixel becomes what `Drawn` says or keeps its character |
| Pipeline.UnlinesAppend | cpp-yandex-04-brown/week_3/pipeline/pipeline.cpp:26-32 | ending lines with newlines is compatible with putting them one after the other |
| Pipeline.TextLines | cpp-yandex-04-brown/week_3/pipeline/pipeline.cpp:26-32 | what a sender writes is the e-mails' from, to and body lines, each ended by a newline |
| Pipeline.ReadLines | cpp-yandex-04-brown/week_3/pipeline/pipeline.cpp:18-24 | reading the lines that e-mails are written as gives the e-mails back |
| Pipeline.LinesRead | cpp-yandex-04-brown/week_3/pipeline/pipeline.cpp:18-24 | the reader keeps every whole triple of lines and drops only an incomplete last e-mail |
| Pipeline.NoSenderWritesNothing | cpp-yandex-04-brown/week_3/pipeline/pipeline.cpp:46-50 | only senders write: a chain without one, including the empty chain behind a null `next_`, writes nothing |
| Pipeline.DeliveredConcat | cpp-yandex-04-brown/week_3/pipeline/pipeline.cpp:46-50 | chains compose: what `a + b` passes on is what `b` passes on for each e-mail `a` passes on, in order |
| Pipeline.DeliveredAllAppend | cpp-yandex-04-brown/week_3/pipeline/pipeline.cpp:68-72 | passing on a sequence of e-mails passes on each part in turn |
| Pipeline.FilterForwards | cpp-yandex-04-brown/week_3/pipeline/pipeline.cpp:92-96 | a filter passes an e-mail on exactly when its predicate holds |
| Pipeline.CopierForwards | cpp-yandex-04-brown/week_3/pipeline/pipeline.cpp:109-123 | a copier passes on the original first and then, only when the original is not already addressed to the recipient, a copy to the recipient with the same sender and body |
| Pipeline.SenderForwards | cpp-yandex-04-brown/week_3/pipeline/pipeline.cpp:136-140 | a sender writes the e-mail, as its three lines, before passing it on unchanged |
| Pipeline.ReaderKeepsOrder | cpp-yandex-04-brown/week_3/pipeline/pipeline.cpp:68-72 | a reader followed by a lone sender writes what it read, in input order |
| Pipeline.Worker.constructor | cpp-yandex-04-brown/week_3/pipeline/pipeline.cpp:34-56 | a new worker does its stage's job and has no `next_` |
| Pipeline.Worker.SetNext | cpp-yandex-04-brown/week_3/pipeline/pipeline.cpp:53-55 | `next_` becomes the worker given |
| Pipeline.Process | cpp-yandex-04-brown/week_3/pipeline/pipeline.cpp:74-140 | the worker at position `i` of a linked chain writes, through its successors, exactly what `Written` says of the rest of the chain |
| Pipeline.PassOn | cpp-yandex-04-brown/week_3/pipeline/pipeline.cpp:46-50 | nothing when `next_` is null; otherwise what the next worker's processing writes |
| Pipeline.Run | cpp-yandex-04-brown/week_3/pipeline/pipeline.cpp:38-72 | a reader at the head passes on each e-mail it read, in order, writing what `RunChain` says; any other head throws `logic_error` |
| Pipeline.WrittenAllSnoc | cpp-yandex-04-brown/week_3/pipeline/pipeline.cpp:69-71 | passing on one more e-mail appends what is written for it |
| Pipeline.ReadInput | cpp-yandex-04-brown/week_3/pipeline/pipeline.cpp:61-66 | the reader's loop reads the e-mails three lines at a time, as `ReadEmails` says |
| Pipeline.PipelineBuilder.constructor | cpp-yandex-04-brown/week_3/pipeline/pipeline.cpp:151-153 | the builder starts with one worker, a reader of the input |
| Pipeline.PipelineBuilder.Add | cpp-yandex-04-brown/week_3/pipeline/pipeline.cpp:156-171 | a new worker is appended after the existing ones, which stay in place |
| Pipeline.PipelineBuilder.FilterBy | cpp-yandex-04-brown/week_3/pipeline/pipeline.cpp:156-159 | a filter is appended |
| Pipeline.PipelineBuilder.CopyTo | cpp-yandex-04-brown/week_3/pipeline/pipeline.cpp:162-165 | a copier to the recipient is appended |
| Pipeline.PipelineBuilder.Send | cpp-yandex-04-brown/week_3/pipeline/pipeline.cpp:168-171 | a sender is appended |
| Pipeline.PipelineBuilder.Build | cpp-yandex-04-brown/week_3/pipeline/pipeline.cpp:174-185 | null without workers; otherwise each worker linked to the one added after it, the first returned and the builder emptied |
| Pipeline.SanityStep | cpp-yandex-04-brown/week_3/pipeline/pipeline.cpp:209-215 | what the test's filter, copier and sender write for one e-mail |
| Pipeline.SanityRun | cpp-yandex-04-brown/week_3/pipeline/pipeline.cpp:192-217 | the test pipeline sends the first e-mail, the second, and the second's copy to richard |
| Pipeline.Sanity | cpp-yandex-04-brown/week_3/pipeline/pipeline.cpp:192-234 | the text the test's sender writes is exactly the expected nine lines |
| CommentServer.SplitBy | cpp-yandex-04-brown/week_2/comment_server/comment_server.cpp:19-26 | splits at the first separator only when something follows it; otherwise the whole text and nothing, exactly when no separator occurs before the last character |
| CommentServer.SkipSpace | cpp-yandex-04-brown/week_2/comment_server/comment_server.cpp:28-34 | the stream skips leading white space: the result is a suffix that starts with no space |
| CommentServer.DigitRun | cpp-yandex-04-brown/week_2/comment_server/comment_server.cpp:28-34 | the number read is the longest run of digits at the front |
| CommentServer.DigitRunOf | cpp-yandex-04-brown/week_2/comment_server/comment_server.cpp:28-34 | a digit string followed by a non-digit is read to its end |
| CommentServer.ReadSizeOf | cpp-yandex-04-brown/week_2/comment_server/comment_server.cpp:28-34 | reading a rendered number followed by a non-digit gives the number back |
| CommentServer.CommentBody | cpp-yandex-04-brown/week_2/comment_server/comment_server.cpp:36-39 | the body "id text" parses back to the id and the text, the empty text included |
| CommentServer.UserIdParam | cpp-yandex-04-brown/week_2/comment_server/comment_server.cpp:151-153 | the listing parameter reads back as the user id |
| CommentServer.FindSpaceAfterDigits | cpp-yandex-04-brown/week_2/comment_server/comment_server.cpp:19-21 | the first space after a digit run is right after it |
| CommentServer.SplitAtSpace | cpp-yandex-04-brown/week_2/comment_server/comment_server.cpp:19-26 | a digit run, a space and a text split at that space, except that an empty text leaves the space on the left |
| CommentServer.ParseCommentBody | cpp-yandex-04-brown/week_2/comment_server/comment_server.cpp:36-39 | parsing a rendered id, a space and a text gives back the id and the text |
| CommentServer.StepConsistent | cpp-yandex-04-brown/week_2/comment_server/comment_server.cpp:120-164 | every request keeps the invariant: run counts at least one and every kept id a user's |
| CommentServer.ParseBodies | cpp-yandex-04-brown/week_2/comment_server/comment_server.cpp:125-127 | comment and captcha bodies are read as id and text |
| CommentServer.ParseListing | cpp-yandex-04-brown/week_2/comment_server/comment_server.cpp:151-153 | a listing reads its user id from the `user_id` parameter |
| CommentServer.ParsePlain | cpp-yandex-04-brown/week_2/comment_server/comment_server.cpp:122-124 | adding a user and asking for the captcha ignore the body and parameters |
| CommentServer.AddUserNumbers | cpp-yandex-04-brown/week_2/comment_server/comment_server.cpp:122-124 | `/add_user` answers the next id in decimal and adds a user with no comments; nothing else changes |
| CommentServer.CommentCounts | cpp-yandex-04-brown/week_2/comment_server/comment_server.cpp:125-133 | the run count restarts at one for a new user and grows for the same one; the user is banned exactly when already banned or the count passes three |
| CommentServer.CommentStored | cpp-yandex-04-brown/week_2/comment_server/comment_server.cpp:134-139 | a banned user is redirected to `/captcha` and the comment dropped; otherwise it is appended to that user's comments only and 200 is answered |
| CommentServer.FourthInARowRefused | cpp-yandex-04-brown/week_2/comment_server/comment_server.cpp:125-139 | from an unbanned user starting a run, three comments are stored and the fourth is refused with a redirect |
| CommentServer.CaptchaAnswer | cpp-yandex-04-brown/week_2/comment_server/comment_server.cpp:140-150 | the answer 42 unbans the user and forgets their run only; any other answer redirects and changes nothing |
| CommentServer.Listing | cpp-yandex-04-brown/week_2/comment_server/comment_server.cpp:151-157 | `/user_comments` lists the user's comments in order, each followed by a newline, changing nothing |
| CommentServer.JoinedLength | cpp-yandex-04-brown/week_2/comment_server/comment_server.cpp:154-156 | the listing is each comment's length plus one newline per comment |
| CommentServer.Unmatched | cpp-yandex-04-brown/week_2/comment_server/comment_server.cpp:160-162 | any other method or path answers 404 and changes nothing |
| CommentServer.RunAppend | cpp-yandex-04-brown/week_2/comment_server/comment_server.cpp:120-164 | serving two runs of requests one after the other is serving their concatenation |
| CommentServer.AppendAt | cpp-yandex-04-brown/week_2/comment_server/comment_server.cpp:138 | appending a comment changes that user's list only |
| CommentServer.JoinedShort | cpp-yandex-04-brown/week_2/comment_server/comment_server.cpp:154-156 | two, three and four comments are listed with a newline after each |
| CommentServer.RunThrough | cpp-yandex-04-brown/week_2/comment_server/comment_server.cpp:120-164 | a run through given states with given responses yields the last state and those responses |
| CommentServer.ScriptBanSteps | cpp-yandex-04-brown/week_2/comment_server/comment_server.cpp:234-242 | the test's first nine requests: two users, and the fourth comment in a row redirected |
| CommentServer.ScriptListingSteps | cpp-yandex-04-brown/week_2/comment_server/comment_server.cpp:243-252 | the test's listings return each user's comments in order |
| CommentServer.ScriptCaptchaSteps | cpp-yandex-04-brown/week_2/comment_server/comment_server.cpp:253-268 | the captcha page, a wrong and a right answer, a comment again and the two 404s |
| CommentServer.ScriptResponses | cpp-yandex-04-brown/week_2/comment_server/comment_server.cpp:226-269 | from a new server, the scripted requests get exactly the codes, headers and contents the test expects |
| CommentServer.Server.constructor | cpp-yandex-04-brown/week_2/comment_server/comment_server.cpp:113-118 | a new server has no users, no run of comments and no bans |
| CommentServer.Server.ServeRequest | cpp-yandex-04-brown/week_2/comment_server/comment_server.cpp:120-164 | the fields change as the transition prescribes and the response is its response; the invariant is kept |
| CommentServer.Server.PostComment | cpp-yandex-04-brown/week_2/comment_server/comment_server.cpp:125-139 | the `/add_comment` branch on the fields |
| CommentServer.Server.AnswerCaptcha | cpp-yandex-04-brown/week_2/comment_server/comment_server.cpp:140-150 | the `/checkcaptcha` branch on the fields |
| CommentServer.UserContent | cpp-yandex-04-brown/week_2/comment_server/comment_server.cpp:154-156 | the listing loop writes each comment followed by a newline |
| JsonPrinter.EscapeChar | cpp-yandex-05-black/week_2/json_printer/json_printer.cpp:42-45 | a character is written as itself, or as `\` and itself when it is `"` or `\` |
| JsonPrinter.EscapeAppend | cpp-yandex-05-black/week_2/json_printer/json_printer.cpp:41-46 | escaping is done character by character: the escape of a concatenation is the concatenation of the escapes |
| JsonPrinter.UnescapeEscape | cpp-yandex-05-black/week_2/json_printer/json_printer.cpp:39-51 | the escaped text loses nothing: unescaping it gives the original string back |
| JsonPrinter.EscapedQuotes | cpp-yandex-05-black/week_2/json_printer/json_printer.cpp:42-45 | every `"` in the escaped text has a `\` before it, so the string cannot end early |
| JsonPrinter.EscapePlain | cpp-yandex-05-black/week_2/json_printer/json_printer.cpp:41-46 | a string with no `"` or `\` is written as it is |
| JsonPrinter.QuotedPlain | cpp-yandex-05-black/week_2/json_printer/json_printer.cpp:39-47 | such a string is written between quotes unchanged |
| JsonPrinter.Output.constructor | cpp-yandex-05-black/week_2/json_printer/json_printer.cpp:197 | a new output stream is empty |
| JsonPrinter.Output.Write | cpp-yandex-05-black/week_2/json_printer/json_printer.cpp:33-61 | writing appends to what the stream holds |
| JsonPrinter.Value.constructor | cpp-yandex-05-black/week_2/json_printer/json_printer.cpp:21-24 | a new value writes to the given stream and has printed nothing |
| JsonPrinter.Value.Number | cpp-yandex-05-black/week_2/json_printer/json_printer.cpp:32-37 | the decimal spelling of the `int64_t` is appended and the value is printed |
| JsonPrinter.Value.String | cpp-yandex-05-black/week_2/json_printer/json_printer.cpp:39-51 | `"`, each character escaped, and `"` are appended and the value is printed |
| JsonPrinter.Value.Boolean | cpp-yandex-05-black/week_2/json_printer/json_printer.cpp:53-58 | `true` or `false` is appended and the value is printed |
| JsonPrinter.Value.Null | cpp-yandex-05-black/week_2/json_printer/json_printer.cpp:60-65 | `null` is appended and the value is printed |
| JsonPrinter.Value.BeginArray | cpp-yandex-05-black/week_2/json_printer/json_printer.cpp:67 | the value counts as printed and a new open array has written `[` to the same stream |
| JsonPrinter.Value.BeginObject | cpp-yandex-05-black/week_2/json_printer/json_printer.cpp:68 | the value counts as printed and a new open object has written `{` to the same stream |
| JsonPrinter.Value.Finish | cpp-yandex-05-black/week_2/json_printer/json_printer.cpp:26-30 | the destructor writes `null` exactly when nothing was printed for the value |
| JsonPrinter.Context.constructor | cpp-yandex-05-black/week_2/json_printer/json_printer.cpp:79-96 | a new context writes its opening bracket and is open with no element yet |
| JsonPrinter.Context.Delimiter | cpp-yandex-05-black/week_2/json_printer/json_printer.cpp:98-104 | nothing is written before the first element and `,` before each later one |
| JsonPrinter.Context.End | cpp-yandex-05-black/week_2/json_printer/json_printer.cpp:106-111 | the closing bracket is written at most once, and only while the context is open |
| JsonPrinter.Context.AddValue | cpp-yandex-05-black/week_2/json_printer/json_printer.cpp:91 | the delimiter is written and an unprinted value on the same stream is returned |
| JsonPrinter.ArrayContext.constructor | cpp-yandex-05-black/week_2/json_printer/json_printer.cpp:122-124 | `PrintJsonArray` writes `[` and gives an open array with no element |
| JsonPrinter.ArrayContext.Number | cpp-yandex-05-black/week_2/json_printer/json_printer.cpp:126-129 | the delimiter and the number are appended |
| JsonPrinter.ArrayContext.String | cpp-yandex-05-black/week_2/json_printer/json_printer.cpp:131-134 | the delimiter and the quoted, escaped string are appended |
| JsonPrinter.ArrayContext.Boolean | cpp-yandex-05-black/week_2/json_printer/json_printer.cpp:136-139 | the delimiter and `true` or `false` are appended |
| JsonPrinter.ArrayContext.Null | cpp-yandex-05-black/week_2/json_printer/json_printer.cpp:141-144 | the delimiter and `null` are appended |
| JsonPrinter.ArrayContext.BeginArray | cpp-yandex-05-black/week_2/json_printer/json_printer.cpp:146-149 | the delimiter and `[` are appended and a nested open array is returned |
| JsonPrinter.ArrayContext.BeginObject | cpp-yandex-05-black/week_2/json_printer/json_printer.cpp:151-154 | the delimiter and `{` are appended and a nested open object is returned |
| JsonPrinter.ArrayContext.Close | cpp-yandex-05-black/week_2/json_printer/json_printer.cpp:87-89 | `EndArray` and the destructor append `]` unless it was already written |
| JsonPrinter.ObjectContext.constructor | cpp-yandex-05-black/week_2/json_printer/json_printer.cpp:165-194 | `PrintJsonObject` writes `{` and gives an open object with no entry |
| JsonPrinter.ObjectContext.Key | cpp-yandex-05-black/week_2/json_printer/json_printer.cpp:169-174 | the delimiter, the key as a quoted escaped string and `:` are appended, and an unprinted value for the entry is returned |
| JsonPrinter.ObjectContext.Close | cpp-yandex-05-black/week_2/json_printer/json_printer.cpp:87-89 | `EndObject` and the destructor append `}` unless it was already written |
| JsonPrinter.ArrayExample | cpp-yandex-05-black/week_2/json_printer/json_printer.cpp:196-212 | the array session writes `[5,6,[7],8,"bingo!"]` |
| JsonPrinter.ObjectExample | cpp-yandex-05-black/week_2/json_printer/json_printer.cpp:214-227 | the object session writes `{"id1":1234,"id2":false,"":null,"\"":"\\"}` |
| JsonPrinter.PlainEntries | cpp-yandex-05-black/week_2/json_printer/json_printer.cpp:220-221 | the first two entries write `"id1":1234,"id2":false` |
| JsonPrinter.SpecialEntries | cpp-yandex-05-black/week_2/json_printer/json_printer.cpp:222-223 | the last two entries write an empty key with `null` and an escaped quote key with an escaped backslash |
| JsonPrinter.AutoCloseExample | cpp-yandex-05-black/week_2/json_printer/json_printer.cpp:229-238 | contexts left open close innermost first, writing `[[{}]]` |
| JsonPrinter.SpecialQuotes | cpp-yandex-05-black/week_2/json_printer/json_printer.cpp:42-45 | a lone `"` and a lone `\` are written with a backslash before them |
| Json.ReadCharSkipped | cpp-yandex-04-brown/week_6/transport_guide_D/json.cpp:20 | `input >> c` yields the first character after the skipped spaces, or fails when only spaces remain |
| Json.ParseString | cpp-yandex-04-brown/week_6/transport_guide_D/json.cpp:69-73 | `LoadString` takes everything up to the first `"`, which is consumed, or the whole rest when there is none |
| Json.QuoteSplitUnique | cpp-yandex-04-brown/week_6/transport_guide_D/json.cpp:69-73 | a text splits at most one way around its first `"`, so what `LoadString` returns is determined |
| Json.DigitPrefixLongest | cpp-yandex-04-brown/week_6/transport_guide_D/json.cpp:48 | the digits `stoi` reads are the longest prefix of digits |
| Json.ToInt | cpp-yandex-04-brown/week_6/transport_guide_D/json.cpp:48 | `stoi` succeeds only with a value inside 32-bit `int` |
| Json.ToIntOfString | cpp-yandex-04-brown/week_6/transport_guide_D/json.cpp:48 | `stoi` reads back every `int` written in decimal |
| Json.ToDouble | cpp-yandex-04-brown/week_6/transport_guide_D/json.cpp:46 | `stod` fails only with `invalid_argument` on the texts modelled |
| Json.Emplace | cpp-yandex-04-brown/week_6/transport_guide_D/json.cpp:85 | `emplace` adds the key, and a key already present keeps its value |
| Json.NumberKind | cpp-yandex-04-brown/week_6/transport_guide_D/json.cpp:30-50 | a number is read as a `double` exactly when the collected characters hold a `.`, and as an `int` otherwise |
| Json.ArrayKeepsItems | cpp-yandex-04-brown/week_6/transport_guide_D/json.cpp:17-28 | an array read after some items is an array that starts with them |
| Json.DictKeepsFirst | cpp-yandex-04-brown/week_6/transport_guide_D/json.cpp:75-89 | a dictionary keeps each key already read with its first value |
| Json.NodeKind | cpp-yandex-04-brown/week_6/transport_guide_D/json.cpp:91-108 | the kind of node read follows from the first character after the spaces: `[` an array, `{` a dictionary, `"` a string, a digit or `-` a number, anything else a bool |
| Json.EmptyArray | cpp-yandex-04-brown/week_6/transport_guide_D/json.cpp:17-28 | `[]` reads as the empty array |
| Json.ArrayDiverges | cpp-yandex-04-brown/week_6/transport_guide_D/json.cpp:20-25 | inside an array, a character that starts no node makes no progress: the loop would read and put it back forever |
| Json.ParseNodeNumber | cpp-yandex-04-brown/week_6/transport_guide_D/json.cpp:101-103 | a digit or `-` is put back and the number is read from it |
| Json.ParseNodeBool | cpp-yandex-04-brown/week_6/transport_guide_D/json.cpp:104-106 | a letter is put back and a bool is read |
| Json.ParseArrayItem | cpp-yandex-04-brown/week_6/transport_guide_D/json.cpp:20-25 | one array element, after a `,` or from the character put back, is appended to the items |
| Json.ParseDictEntry | cpp-yandex-04-brown/week_6/transport_guide_D/json.cpp:78-86 | one dictionary entry, the first or one after a `,`, is emplaced |
| Json.IntRoundTrip | cpp-yandex-04-brown/week_6/transport_guide_D/json.cpp:30-50 | every `int` written in decimal and followed by a delimiter reads back as that `Int` |
| Json.BoolRoundTrip | cpp-yandex-04-brown/week_6/transport_guide_D/json.cpp:52-67 | `true` and `false` followed by a delimiter read back as that `Bool` |
| Json.ParseBoolOf | cpp-yandex-04-brown/week_6/transport_guide_D/json.cpp:52-67 | the letters read give `true` exactly when they spell `true` |
| Json.StrRoundTrip | cpp-yandex-04-brown/week_6/transport_guide_D/json.cpp:69-100 | a quoted string without `"` reads back as that `Str` |
| Json.RenderRoundTrip | cpp-yandex-04-brown/week_6/transport_guide_D/json.cpp:17-108 | reading the text of a node gives the node back and stops right after it, for every node made of `int`s, booleans, strings without `"`, and arrays and dictionaries of these whose keys have no `"` |
| Json.DictRoundTrip | cpp-yandex-04-brown/week_6/transport_guide_D/json.cpp:75-108 | `{`, the entries `"key":value` separated by `,`, and `}` read back as that dictionary |
| Json.EntriesRoundTrip | cpp-yandex-04-brown/week_6/transport_guide_D/json.cpp:75-89 | reading the rest of a dictionary's text after some of its keys gives the whole dictionary |
| Json.EntryStep | cpp-yandex-04-brown/week_6/transport_guide_D/json.cpp:78-86 | reading the entry of the next key advances to the key after it, with that key and value added |
| Json.EntryText | cpp-yandex-04-brown/week_6/transport_guide_D/json.cpp:78-85 | the next entry starts with `"` (the first) or `,` (a later one), and after the character read the entry reader is given `key":value` followed by the rest |
| Json.EntriesAdded | cpp-yandex-04-brown/week_6/transport_guide_D/json.cpp:85 | `emplace` of a key not read before adds it with its value, so distinct keys are all kept |
| Json.ItemsRoundTrip | cpp-yandex-04-brown/week_6/transport_guide_D/json.cpp:17-28 | reading the rest of an array's text after some items gives the whole array |
| Json.ItemStep | cpp-yandex-04-brown/week_6/transport_guide_D/json.cpp:20-25 | reading one item of an array's text advances to the next item |
| Json.EntryRoundTrip | cpp-yandex-04-brown/week_6/transport_guide_D/json.cpp:83-85 | `key":` and the text of a value read back as that key and value |
| Json.LoadRender | cpp-yandex-04-brown/week_6/transport_guide_D/json.cpp:110-112 | `Load` reads back every document written in its syntax whose numbers are `int`s and whose strings and keys have no `"` |
| Json.Input.constructor | cpp-yandex-04-brown/week_6/transport_guide_D/json.cpp:110 | a stream over a text has that whole text left to read |
| Json.Input.SkipSpaces | cpp-yandex-04-brown/week_6/transport_guide_D/json.cpp:20 | the spaces before the next character are consumed |
| Json.Input.Read | cpp-yandex-04-brown/week_6/transport_guide_D/json.cpp:20 | `input >> c` fails exactly when only spaces are left, leaving the stream at its end; otherwise it returns the next non-space character and consumes it |
| Json.Input.PutBack | cpp-yandex-04-brown/week_6/transport_guide_D/json.cpp:22 | `putback` returns the character just read to the front of the stream |
| Json.LoadString | cpp-yandex-04-brown/week_6/transport_guide_D/json.cpp:69-73 | reads what `ParseString` describes and leaves the rest |
| Json.LoadNumber | cpp-yandex-04-brown/week_6/transport_guide_D/json.cpp:30-50 | reads what `ParseNumber` describes, including its errors |
| Json.LoadBool | cpp-yandex-04-brown/week_6/transport_guide_D/json.cpp:52-67 | reads what `ParseBool` describes |
| Json.LoadNode | cpp-yandex-04-brown/week_6/transport_guide_D/json.cpp:91-108 | reads what `ParseNode` describes, including its errors |
| Json.LoadArray | cpp-yandex-04-brown/week_6/transport_guide_D/json.cpp:17-28 | reads what `ParseArray` describes, with `Diverges` where the loop would not terminate |
| Json.LoadEntry | cpp-yandex-04-brown/week_6/transport_guide_D/json.cpp:83-85 | reads one key and value as `ParseEntry` describes |
| Json.LoadDict | cpp-yandex-04-brown/week_6/transport_guide_D/json.cpp:75-89 | reads what `ParseDict` describes; a repeated key keeps its first value |
| Transit.SplitTwoStrict | cpp-yandex-04-brown/week_6/transport_guide_A/main.cpp:23-30 | no right part exactly when the delimiter is absent, and then the whole text; otherwise left, delimiter and right rebuild the text and the left part holds no delimiter |
| Transit.SplitTwo | cpp-yandex-04-brown/week_6/transport_guide_A/main.cpp:32-35 | as the strict split, with an empty right part when the delimiter is absent |
| Transit.ReadToken | cpp-yandex-04-brown/week_6/transport_guide_A/main.cpp:37-41 | the token is a prefix of the text, what remains is a suffix, and it is strictly shorter when text and delimiter are non-empty |
| Transit.FirstAfter | cpp-yandex-04-brown/week_6/transport_guide_A/main.cpp:23-30 | the first delimiter of `a + d + b` is the one after `a` when a character of `d` that `d` does not repeat earlier is absent from `a` |
| Transit.NoSplit | cpp-yandex-04-brown/week_6/transport_guide_A/main.cpp:25-26 | a text without such a character holds no delimiter |
| Transit.Tokens | cpp-yandex-04-brown/week_6/transport_guide_A/main.cpp:206-209 | the stop loop reads no token exactly when the text is empty |
| Transit.TokensFree | cpp-yandex-04-brown/week_6/transport_guide_A/main.cpp:206-209 | every token read is free of the delimiter |
| Transit.TokensJoin | cpp-yandex-04-brown/week_6/transport_guide_A/main.cpp:206-209 | joining the tokens with the delimiter gives the text back, unless it ends with the delimiter |
| Transit.TokenSplit | cpp-yandex-04-brown/week_6/transport_guide_A/main.cpp:206-209 | after a split of a text not ending with the delimiter, the rest is non-empty and does not end with it either |
| Transit.JoinAvoids | cpp-yandex-04-brown/week_6/transport_guide_A/main.cpp:206-209 | a character absent from the tokens and the delimiter is absent from their join |
| Transit.TokensOfJoin | cpp-yandex-04-brown/week_6/transport_guide_A/main.cpp:206-209 | tokens joined by the delimiter read back as themselves when they avoid one of its characters and the last is non-empty |
| Strings.Reverse | cpp-yandex-04-brown/week_6/transport_guide_A/main.cpp:211-213 | the reverse holds element `n-1-i` at `i` |
| Transit.Expanded | cpp-yandex-04-brown/week_6/transport_guide_A/main.cpp:210-214 | a linear route of `n > 0` stops becomes `2n-1` stops starting with the route as written |
| Transit.ExpandedPalindrome | cpp-yandex-04-brown/week_6/transport_guide_A/main.cpp:210-214 | the expanded route reads the same backwards, so it ends where it starts |
| Transit.AppendReversed | cpp-yandex-04-brown/week_6/transport_guide_A/main.cpp:210-214 | the reverse loop produces the expanded route |
| Transit.ParseBus | cpp-yandex-04-brown/week_6/transport_guide_A/main.cpp:203-215 | `BusUpdateRequest::ParseFrom` yields the bus the text describes |
| Transit.ReadStops | cpp-yandex-04-brown/week_6/transport_guide_A/main.cpp:206-209 | the stop loop yields exactly the tokens in order |
| Transit.BusTextRoundTrip | cpp-yandex-04-brown/week_6/transport_guide_A/main.cpp:203-215 | a bus written as name, `": "` and stops joined by `" - "` or `" > "` reads back as that bus, the linear one expanded |
| Transit.NamesAtMost | cpp-yandex-04-brown/week_6/transport_guide_A/main.cpp:109-119 | a route has at most as many distinct stops as stops |
| Transit.GetUniqueStopsNumber | cpp-yandex-04-brown/week_6/transport_guide_A/main.cpp:113-119 | the count is the number of distinct stop names and at most the number of stops |
| Transit.UpdateTypeOf | cpp-yandex-04-brown/week_6/transport_guide_A/main.cpp:171-183 | `"Stop"` and `"Bus"` name the two update kinds, and any other word names none |
| Transit.AddDistanceDirected | cpp-yandex-04-brown/week_6/transport_guide_C/main.cpp:175-189 | setting `(a, b)` makes the lookup from `a` to `b` give it; the reverse lookup keeps its own stored value; every other pair is unchanged |
| Transit.StoredDistanceSymmetric | cpp-yandex-04-brown/week_6/transport_guide_C/main.cpp:179-189 | both lookup directions agree when at most one direction is stored |
| Transit.DistanceEntries | cpp-yandex-04-brown/week_6/transport_guide_C/main.cpp:242-245 | one entry per distance token, in order |
| Transit.DistanceMapKeys | cpp-yandex-04-brown/week_6/transport_guide_C/main.cpp:242-247 | the stop's distance map holds exactly one pair `(stop, name)` per named neighbour |
| Transit.DistanceMapLast | cpp-yandex-04-brown/week_6/transport_guide_C/main.cpp:246 | the distance stored for a neighbour is that of the last entry naming it |
| Transit.EntryTokens | cpp-yandex-04-brown/week_6/transport_guide_C/main.cpp:243-245 | each written entry is the distance, `"m to "` and the neighbour's name |
| Transit.DistanceTextJoin | cpp-yandex-04-brown/week_6/transport_guide_C/main.cpp:242-243 | the distance part of a stop line is `", "` followed by the entries joined by `", "` |
| Transit.DistancesRead | cpp-yandex-04-brown/week_6/transport_guide_C/main.cpp:241-247 | the text after the latitude reads back as the longitude and the distance entries |
| Transit.NoDistances | cpp-yandex-04-brown/week_6/transport_guide_C/main.cpp:241 | a stop line without distances leaves nothing after the longitude |
| Transit.LonThenRest | cpp-yandex-04-brown/week_6/transport_guide_C/main.cpp:241 | the longitude token ends at the first `", "` |
| Transit.EntriesRead | cpp-yandex-04-brown/week_6/transport_guide_C/main.cpp:242-245 | entries joined by `", "` read back as themselves |
| Transit.EntryTokensAvoid | cpp-yandex-04-brown/week_6/transport_guide_C/main.cpp:242-245 | written entries avoid the comma and the last is non-empty |
| Transit.EntryTokensRead | cpp-yandex-04-brown/week_6/transport_guide_C/main.cpp:244-245 | each written entry reads back as its distance and name |
| Transit.StopTextRoundTrip | cpp-yandex-04-brown/week_6/transport_guide_C/main.cpp:238-248 | a stop line with coordinates and road distances reads back as that stop and those distances, the last per neighbour winning |
| Transit.NameThenRest | cpp-yandex-04-brown/week_6/transport_guide_C/main.cpp:239 | the stop name ends at the first `": "` |
| Transit.ParseStop | cpp-yandex-04-brown/week_6/transport_guide_C/main.cpp:238-248 | `StopUpdateRequest::ParseFrom` yields the stop and distance map the text describes |
| Transit.ReadDistances | cpp-yandex-04-brown/week_6/transport_guide_C/main.cpp:242-247 | the distance loop yields the map of the remaining tokens |
| Transit.TokenStep | cpp-yandex-04-brown/week_6/transport_guide_C/main.cpp:242-246 | one loop step moves one token from the unread text to the read ones |
| Transit.TokensStep | cpp-yandex-04-brown/week_6/transport_guide_C/main.cpp:242-243 | reading one token splits the token sequence into its head and the rest's tokens |
| Transit.DistanceMapSnoc | cpp-yandex-04-brown/week_6/transport_guide_C/main.cpp:246 | one more token adds or overwrites only its pair |
| Transit.FirstStopKept | cpp-yandex-04-brown/week_6/transport_guide_A/main.cpp:127-129 | after `emplace` of stops in turn, the names are exactly those added, each with the first stop added under it |
| Transit.BusNamesKept | cpp-yandex-04-brown/week_6/transport_guide_A/main.cpp:131-133 | after `busByName[name] = bus` in turn, the names are exactly those added |
| Transit.LastBusKept | cpp-yandex-04-brown/week_6/transport_guide_A/main.cpp:131-133 | each name holds the last bus added under it |
| Transit.ListedAt | cpp-yandex-04-brown/week_6/transport_guide_C/main.cpp:142-147 | after `AddBus` each stop of the route lists the bus besides what it listed, no other stop changes, and an unlisted stop has no buses |
| Transit.RoadDistance | cpp-yandex-04-brown/week_6/transport_guide_C/main.cpp:179-193 | the distance stored for `(a, b)`, else the one for `(b, a)`, else the geodesic one |
| Transit.RoadLengthWithoutDistances | cpp-yandex-04-brown/week_6/transport_guide_C/main.cpp:402-409 | where no leg has a stored distance, the road length is the geodesic length |
| Transit.RoadLengthStored | cpp-yandex-04-brown/week_6/transport_guide_C/main.cpp:402-408 | where every leg has its forward distance stored, the road length is the sum of those distances |
| TransitA.PlainStopRoundTrip | cpp-yandex-04-brown/week_6/transport_guide_A/main.cpp:66-71 | a stop written as `name: lat, lon` reads back as that stop, the coordinates converted |
| TransitA.ParseUpdateKinds | cpp-yandex-04-brown/week_6/transport_guide_A/main.cpp:235-245 | a line is a stop update or a bus update by its first word, parsed from the rest, and no request for any other word |
| TransitA.ParseReadKinds | cpp-yandex-04-brown/week_6/transport_guide_A/main.cpp:361-371 | only `Bus <name>` is a query, for the rest of the line |
| TransitA.TransportGuide.constructor | cpp-yandex-04-brown/week_6/transport_guide_A/main.cpp:147-150 | a new guide has no stops and no buses |
| TransitA.TransportGuide.AddStop | cpp-yandex-04-brown/week_6/transport_guide_A/main.cpp:127-129 | the stop is registered unless its name already is; buses unchanged |
| TransitA.TransportGuide.AddBus | cpp-yandex-04-brown/week_6/transport_guide_A/main.cpp:131-133 | the bus replaces any of its name; stops unchanged |
| TransitA.TransportGuide.ProcessUpdates | cpp-yandex-04-brown/week_6/transport_guide_A/main.cpp:390-397 | the tables after the requests are those the requests register in order |
| TransitA.TransportGuide.ProcessBusRead | cpp-yandex-04-brown/week_6/transport_guide_A/main.cpp:327-347 | an unknown bus is not found; a known one fails exactly when it has a leg and an unregistered stop, and otherwise reports its stop count, distinct stop count and geodesic length |
| TransitA.StopsOf | cpp-yandex-04-brown/week_6/transport_guide_A/main.cpp:390-397 | the stop requests, at most one per request |
| TransitA.BusesOf | cpp-yandex-04-brown/week_6/transport_guide_A/main.cpp:390-397 | the bus requests, at most one per request |
| TransitA.UpdatesFromEmpty | cpp-yandex-04-brown/week_6/transport_guide_A/main.cpp:127-133 | from an empty guide, each stop name holds the first stop added under it and each bus name the last bus |
| TransitC.ParseUpdateKinds | cpp-yandex-04-brown/week_6/transport_guide_C/main.cpp:297-307 | a line is a stop update (stop and distances) or a bus update by its first word, and no request for any other word |
| TransitC.ParseReadKinds | cpp-yandex-04-brown/week_6/transport_guide_C/main.cpp:477-487 | `Bus <name>` and `Stop <name>` are queries for the rest of the line; any other word is none |
| TransitC.Curvature | cpp-yandex-04-brown/week_6/transport_guide_C/main.cpp:409 | defined exactly when the geodesic length is non-zero, and then times the geodesic length it gives the road length |
| TransitC.TransportGuide.constructor | cpp-yandex-04-brown/week_6/transport_guide_C/main.cpp:195-199 | a new guide has empty tables |
| TransitC.TransportGuide.AddStop | cpp-yandex-04-brown/week_6/transport_guide_C/main.cpp:138-140 | the stop is registered unless its name already is |
| TransitC.TransportGuide.AddBus | cpp-yandex-04-brown/week_6/transport_guide_C/main.cpp:142-147 | the bus replaces any of its name and is listed at each of its stops |
| TransitC.TransportGuide.AddDistance | cpp-yandex-04-brown/week_6/transport_guide_C/main.cpp:175-177 | only the ordered pair is set |
| TransitC.TransportGuide.ProcessStopUpdate | cpp-yandex-04-brown/week_6/transport_guide_C/main.cpp:250-256 | the stop is added and every parsed distance set, whatever the visiting order |
| TransitC.TransportGuide.ProcessUpdates | cpp-yandex-04-brown/week_6/transport_guide_C/main.cpp:506-513 | the tables after the requests are those the requests produce in order |
| TransitC.TransportGuide.ProcessBusRead | cpp-yandex-04-brown/week_6/transport_guide_C/main.cpp:393-415 | not found for an unknown bus; a failure exactly when a leg's stop is unregistered; otherwise stop count, distinct stops, road length and curvature |
| TransitC.TransportGuide.ProcessReadRequests | cpp-yandex-04-brown/week_6/transport_guide_C/main.cpp:515-524 | one answer per query in order, bus queries answered as above and stop queries by the stop table; a failure exactly when some bus query fails |
| TransitC.CurvatureWithoutDistances | cpp-yandex-04-brown/week_6/transport_guide_C/main.cpp:402-409 | with no stored distance on any leg and a positive geodesic length, the curvature is 1 |
| TransitC.StopsOf | cpp-yandex-04-brown/week_6/transport_guide_C/main.cpp:506-513 | the stop requests, at most one per request |
| TransitC.BusesOf | cpp-yandex-04-brown/week_6/transport_guide_C/main.cpp:506-513 | the bus requests, at most one per request |
| TransitC.UpdatesFromEmpty | cpp-yandex-04-brown/week_6/transport_guide_C/main.cpp:138-147 | from an empty guide: first stop per name, last bus per name, and each stop lists exactly the buses whose route passes through it |
| TransitC.PassingSnoc | cpp-yandex-04-brown/week_6/transport_guide_C/main.cpp:144-146 | one more bus adds its name to the stops it passes only |
| TransitC.StopQueryAfterUpdates | cpp-yandex-04-brown/week_6/transport_guide_C/main.cpp:450-461 | after updates from an empty guide, a stop query finds the stop exactly when a stop request named it, and then lists the buses through it |
| TransitE.Located | cpp-yandex-04-brown/week_6/transport_guide_E/main.cpp:227-229 | `GetStop` is defined on exactly the indexed names |
| TransitE.AddStopLocated | cpp-yandex-04-brown/week_6/transport_guide_E/main.cpp:203-206 | the new stop's index is the vector's size before the push; a name added again points to the newest stop, every other name keeps its stop |
| TransitE.ToSize | cpp-yandex-04-brown/week_6/transport_guide_E/main.cpp:271 | the wait time stored in a `size_t` item: unchanged when it fits, wrapped by 2^64 when negative |
| TransitE.RideTimeByRoad | cpp-yandex-04-brown/week_6/transport_guide_E/main.cpp:280-284 | a ride's time is the road length between its two stops over the speed in metres per minute |
| TransitE.Row | cpp-yandex-04-brown/week_6/transport_guide_E/main.cpp:283-295 | the rides boarding at stop `i` of an `n`-stop route go to each later stop in order |
| TransitE.Rows | cpp-yandex-04-brown/week_6/transport_guide_E/main.cpp:280-296 | the rides boarding at the first `i` stops all belong to the bus and go forward within the route |
| TransitE.RowsCover | cpp-yandex-04-brown/week_6/transport_guide_E/main.cpp:280-296 | every ride from one of the first `i` stops to a later stop is there |
| TransitE.RowsCount | cpp-yandex-04-brown/week_6/transport_guide_E/main.cpp:280-296 | a bus of `n` stops adds `n(n-1)/2` rides |
| TransitE.Hops | cpp-yandex-04-brown/week_6/transport_guide_E/main.cpp:276-297 | the rides of the buses in iteration order, each a forward pair of positions on its route |
| TransitE.HopsCount | cpp-yandex-04-brown/week_6/transport_guide_E/main.cpp:276-297 | the number of rides is the sum of `L(L-1)/2` over the buses |
| TransitE.HopsCover | cpp-yandex-04-brown/week_6/transport_guide_E/main.cpp:276-297 | every forward pair of positions of every bus is a ride |
| TransitE.LockstepCount | cpp-yandex-04-brown/week_6/transport_guide_E/main.cpp:261-297 | the graph has one route item per edge, `|stops| + sum of L(L-1)/2` of each |
| TransitE.LockstepWait | cpp-yandex-04-brown/week_6/transport_guide_E/main.cpp:263-274 | edge `i < |stops|` goes from `2i` to `2i+1` weighted by the wait time, and its item is that stop's wait |
| TransitE.LockstepRide | cpp-yandex-04-brown/week_6/transport_guide_E/main.cpp:276-295 | every later edge leaves the boarding vertex of the ride's first stop for the arrival vertex of its last, weighted by the ride time, and its item is the ride over `j - i` stops with that time |
| TransitE.EdgesInGraph | cpp-yandex-04-brown/week_6/transport_guide_E/main.cpp:262-289 | every edge joins two of the `2 * |stops|` vertices; ride edges go from odd to even ones |
| TransitE.RideEdgeInGraph | cpp-yandex-04-brown/week_6/transport_guide_E/main.cpp:285-289 | ride edges join vertices of the graph, odd to even |
| TransitE.ItemTimes | cpp-yandex-04-brown/week_6/transport_guide_E/main.cpp:261-297 | with a wait time that fits a `size_t`, each item's time is its edge's weight |
| TransitE.PathItems | cpp-yandex-04-brown/week_6/transport_guide_E/main.cpp:311-316 | one item per edge of the route, each the item of that edge |
| TransitE.PathTime | cpp-yandex-04-brown/week_6/transport_guide_E/main.cpp:311-320 | where items and edge weights agree, a route's items take together its total weight |
| TransitE.HopsAppend | cpp-yandex-04-brown/week_6/transport_guide_E/main.cpp:276-297 | the edges and items of concatenated rides are the concatenated edges and items |
| TransitE.RowStep | cpp-yandex-04-brown/week_6/transport_guide_E/main.cpp:283-295 | one more ride of a row appends its edge and its item |
| TransitE.BusFromJson | cpp-yandex-04-brown/week_6/transport_guide_E/main.cpp:427-441 | the bus keeps its name and its stops as listed for a round trip, and the route expanded there and back otherwise |
| TransitE.TransportGuide.constructor | cpp-yandex-04-brown/week_6/transport_guide_E/main.cpp:199-201 | a new guide keeps the settings and has no stops, buses, distances, edges or items |
| TransitE.TransportGuide.AddStop | cpp-yandex-04-brown/week_6/transport_guide_E/main.cpp:203-206 | the name points to the next index and the stop is appended; that name now locates the new stop |
| TransitE.TransportGuide.AddBus | cpp-yandex-04-brown/week_6/transport_guide_E/main.cpp:208-213 | the bus replaces any of its name and is listed at each of its stops |
| TransitE.TransportGuide.AddDistance | cpp-yandex-04-brown/week_6/transport_guide_E/main.cpp:241-243 | only the ordered pair is set |
| TransitE.TransportGuide.GetDistance | cpp-yandex-04-brown/week_6/transport_guide_E/main.cpp:245-259 | the stored distance for `(a, b)`, else for `(b, a)`, else the geodesic length between the two stops |
| TransitE.TransportGuide.InitRouter | cpp-yandex-04-brown/week_6/transport_guide_E/main.cpp:261-300 | `2 * |stops|` vertices, the wait edges then the ride edges of each bus in iteration order, and one route item per edge in the same order |
| TransitE.TransportGuide.AddRides | cpp-yandex-04-brown/week_6/transport_guide_E/main.cpp:276-297 | the ride edges and items of the buses in order |
| TransitE.TransportGuide.AddWaits | cpp-yandex-04-brown/week_6/transport_guide_E/main.cpp:263-274 | a wait edge and item per stop in stop order |
| TransitE.TransportGuide.AddBusRides | cpp-yandex-04-brown/week_6/transport_guide_E/main.cpp:279-296 | the ride edges and items of one bus, boarding stop by boarding stop |
| TransitE.TransportGuide.AddRow | cpp-yandex-04-brown/week_6/transport_guide_E/main.cpp:280-296 | the rides boarding at one stop, the time growing one leg at a time |
| TransitE.TransportGuide.PushRide | cpp-yandex-04-brown/week_6/transport_guide_E/main.cpp:283-294 | one leg added to the time, then the ride's edge and item pushed together |
| TransitE.TransportGuide.GetRoute | cpp-yandex-04-brown/week_6/transport_guide_E/main.cpp:302-322 | fails exactly when a stop is unknown; no route exactly when the router finds none; otherwise the router's weight and the items of its edges in order |

## Left out

- **I/O and streams.** Requests and documents are read from `istream`s, and results are printed with `operator<<`. The model takes the input as a sequence of lines or characters and gives the output as values or sequences of written items. Printing (`Print`, `PrintJson`, `PrintResponses`, the `main` functions) is not modelled.
- **Floating point.** Coordinates, distances, money and JSON doubles are `real`, so rounding is not matched. The haversine `GetLength`/`ToRadian` is an uninterpreted function of two coordinates that the guides are built with. `ConvertToDouble` (`stod`) is an uninterpreted `string -> real`.
- **The shortest-path router.** `Graph::DirectedWeightedGraph` and `Graph::Router` (`graph.h`, `router.h`) are not part of this model. `GetRoute` takes the router's answer as a function from two vertices to an optional sequence of edge ids with a weight. The edges `InitRouter` builds are a sequence, so Dijkstra is not verified.
- **`Json::Load` glue.** The wrapper that turns a stream into a `Document` is out. The parse-and-dispatch of version E's JSON requests into `RoutingSettings` and update requests is also out; only `BusUpdateRequest::ParseFrom` on a node is modelled (`TransitE.BusFromJson`). The reading of a node from characters is modelled in `Json`.
- **Iteration order of `unordered_map`.** `InitRouter` visits the buses in an order the standard leaves open, so the order is a parameter (a sequence of the bus names). `StopUpdateRequest::Process` in version C is proved for any visiting order.
- **Concurrency.** The following are sequential in the model:
  - the threaded `ExploreKeyWords`, modelled as its single-thread fold
  - the `async` tasks and the `Synchronized` wrapper of the second search server, modelled by the sequential `UpdateDocumentBaseSingleThread` and `AddQueriesStreamSingleThread`
  - the `std::mutex` in `LruCache`
- **Foreign code given as parameters.**
  - `mktime` behind `Date::AsTimestamp` in the budget is the `stamp` function the manager is built with.
  - `IsPointInEllipse` in the shapes is the `inEllipse` predicate.
  - `IBooksUnpacker::UnpackBook` is the `unpack` function of the cache.
  - `RoutingSettings` come from the JSON document and are given to the guide.
- **Ownership and lifetime.** `unique_ptr`/`shared_ptr` lifetimes and destructors are not modelled:
  - `ObjectPool`'s destructor and `delete`
  - a cached `BookPtr` outliving its eviction
  - the JSON printer's destructors, which are explicit `Finish`/`Close` calls here
- **Other exercises.** These are not part of this model:
  - the sphere projection and map renderer of guides G and I
  - SVG output, `collide.cpp` and the refactoring exercise, which call into libraries whose source is not part of this model
  - the stats aggregator tests, `unique_ptr.cpp` and `booking.h`
  - `matrix_sum`
- **Sign and overflow of `FromString<size_t>`.** `CommentServer.ReadSize` reads a run of decimal digits after white space, or 0 when there are none. A sign, a value past 2^64 and a failed stream state are not modelled.
- CommentServer.Server.ServeRequest: requires that a comment or listing names an existing user, and that a listing carries `user_id`. Otherwise the source indexes `comments_` out of bounds (undefined behaviour) or `at` throws.
- ServerStats.ParseRequest: requires a line with a non-space character. On an empty or all-space line, `remove_prefix(npos)` is undefined behaviour.
- TransitA.TransportGuide.ProcessBusRead: requires a registered bus to have at least one stop. On an empty route, `stops.size() - 1` wraps and the loop reads past the end.
- TransitC.TransportGuide.ProcessBusRead: requires every registered bus to have at least one stop, for the same reason.
- TransitC.TransportGuide.ProcessReadRequests: requires every registered bus to have at least one stop, for the same reason. The first failing bus query ends the run, as the exception from `at` would.
- TransitE.TransportGuide.InitRouter: the bus order is a parameter that lists every bus exactly once, as the iteration of `busByName` does. Every route's stops must be registered (otherwise `at` throws), and the speed must be non-zero (otherwise the times are infinite).
- TransitE.TransportGuide.GetRoute: requires the router's edge ids to lie within the graph, which the router guarantees.
- BudgetDesktop.BudgetManager.Earn: requires the range's day indices to lie within the manager's days and the range to span at least one day. The source divides by the day count and indexes `moneyPerDays_` unchecked.
- BudgetDesktop.BudgetManager.Spend: the same requirement as `Earn`.
- BudgetDesktop.BudgetManager.ComputeIncome: requires addressable day indices.
- BudgetDesktop.BudgetManager.PayTax: requires addressable day indices.
- Shapes.Shape.SetTexture: requires a texture image that holds at least the texture's size; the library's `Texture` guarantees this. The image is a sequence of rows.
- LruCache.LruCache.GetBook: ranks are unbounded integers, so the `int` rank wrapping after 2^31 promotions is not modelled.
- ExpressionTree.Evaluate: values are unbounded integers, so overflow of `int` sums and products is not modelled.
- Json.RenderRoundTrip: doubles are outside the round trip because floating point is not modelled, and so are strings and keys holding `"`, which the source reads without escapes.
- Json.LoadRender: the same documents as `RenderRoundTrip`. A dictionary is written with its keys in one fixed order, `KeyOrder`; texts listing the same entries in another order are not covered.
- TextEditor.Editor.Cut: the default argument `tokens = 1` is not modelled; a caller passes 1.
- TextEditor.Editor.Copy: the default argument `tokens = 1` is not modelled; a caller passes 1.
- BudgetDesktop.BudgetManager.PayTax: the default rate `percentage = 13` is not modelled; a caller passes 13.
- Pipeline.PipelineBuilder.Send: each sender's own `ostream` is not modelled. All senders write to one output sequence in the order they write, so a pipeline whose senders use different streams does not say which stream gets which e-mail.
- Json.ParseArray: on an input where an element consumes nothing (for example `[?`), the source loops forever. The model returns the error `Diverges` for it.
- **Header declarations.** The first search server's header declares `Lookup` with a return type different from its definition. The model follows the definition.
- Json.ToDouble: the value is the exact decimal value of the digits as a `real`. Rounding to `double` and `out_of_range` on huge values are not modelled. The contract states only the kind of error.

## Findings

| source | as written | input that shows it | evidently intended | confidence | as-written member | corrected member |
|---|---|---|---|---|---|---|
| cpp-yandex-05-black/week_1/overflow_sum/overflow_sum.cpp:11-13 | for two negative operands, overflow is detected by `INT64_MIN - a - b > 0`, which itself overflows when both are `INT64_MIN` and wraps to `INT64_MIN` | `a = b = INT64_MIN`: no overflow is reported and the wrapped sum `0` is printed | "Overflow!", since the sum is below `INT64_MIN` | not executed | OverflowSum.AsWrittenMissesMinPlusMin | OverflowSum.Sum |
| cpp-yandex-04-brown/week_1/secondary_index/secondary_index.cpp:71-79 | the range loop runs from `lower_bound(low)` until it meets `upper_bound(high)` | one record of karma 5 and `RangeByKarma(7, 3, …)`: the loop starts at the end of the index, past the upper bound it waits for, and runs off the map | a crossed range visits nothing | not executed | SecondaryIndex.CrossedRangeOverruns | SecondaryIndex.ScanRange |
