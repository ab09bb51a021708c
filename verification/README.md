# Dictionary word lookup, modelled in Dafny

This project models the word-lookup path of an iOS dictionary app. The model covers three parts:

- **The search screen's view model** (`SearchScreenViewModel`). It holds the search session: the term, the definition on display, the loading flag, the error message and the recent-searches list. `searchWord` first looks in a persistent cache of fetched entries. When that misses, it asks the network service. On success it shows the entry, caches it and pushes the word onto the recent list. On failure it shows the error's description. `clearSearch` resets the term, the definition and the error.
- **The network service's response classifier** (`NetworkService.fetchWordDefinition`). It maps an HTTP status, the outcome of decoding the body, or a transport error code to either an entry or a `NetworkError`.
- **The closed error taxonomy** (`NetworkError`) and the message each error shows.

Modules, one per component:

| file | module | models |
|---|---|---|
| `wrappers.dfy` | `Wrappers` | Swift optionals and thrown errors (`Option`, `Result`) |
| `text.dfy` | `Text` | `String.lowercased()` and how an `Int` is printed inside a string |
| `word_definitions.dfy` | `WordDefinitions` | the decoded entry types |
| `network_errors.dfy` | `NetworkErrors` | `NetworkError` and `errorDescription` |
| `network_service.dfy` | `NetworkService` | building the request URL and classifying the response |
| `definition_cache.dfy` | `DefinitionCache` | the Core Data cache as a sequence of records: lookup, insertion, and listing newest first |
| `recent_searches.dfy` | `RecentSearches` | the recent-searches list update |
| `search_screen.dfy` | `SearchScreen` | the view-model class and sessions of several calls |

Modelling choices:

- **Network service.** It is an input of type `string -> Result<entry, NetworkError>`. `SearchWord` returns the word it passed to the service, or `None` when the service was not called. `NetworkService.FetchWordDefinition` is the real service. It takes a predicate saying which strings `URL(string:)` accepts, and a function answering each request URL.
- **Cache.** The store is an append-only sequence of records `(word, jsonData, timestamp)`:
  - `saveToCache` always appends a record. It never overwrites one.
  - A lookup uses only the first record in store order whose key matches. Core Data does not specify the order of an unsorted fetch.
  - `jsonData` is an encoded entry, corrupt bytes or missing data.
  - A failed store read is a boolean input.
- **Clock.** `Date()` becomes the class field `clock`. The invariant `Valid()` says that every stored timestamp is older than `clock`.

Behaviour one might not expect, kept as the code has it:

- A 2xx response with an empty array yields `decodingError`, not `noData`. The `noData` thrown inside the inner `do` block is caught and replaced.
- The cache is not keyed uniquely: every network success appends a new record.
- A failed search leaves a previous `definition` in place, so a definition and an error can both be on display (`FailureKeepsStaleDefinition`).
- The recent list loaded at start-up holds every stored word, newest first. It is neither capped at ten nor de-duplicated.
- The cache key written is the server's `word` lower-cased, not the search term.
- A cache hit does not touch the recent list.
- Pushing a word that is already listed does not move it to the front.

## Model

| member | source | states |
|---|---|---|
| `Text.Lower` | Dictionary/Scenes/SearchScreen/SearchScreenViewModel.swift:77 | lower-casing keeps the length, maps each character on its own, and leaves no upper-case letter |
| `Text.LowerEqualIff` | Dictionary/Core/Network/NetworkServiceProtocol.swift:30 | two strings lower-case to the same string if and only if they differ only in the case of the ASCII letters A-Z |
| `Text.IntToString` | Dictionary/Core/Network/NetworkError.swift:45 | the interpolated `Int` is an integer literal, starting with a minus sign exactly when the integer is negative |
| `Text.IntToStringRoundTrip` | Dictionary/Core/Network/NetworkError.swift:44-45 | the decimal text of an `Int`, as interpolated into a message, parses back to that integer |
| `NetworkErrors.ErrorDescription` | Dictionary/Core/Network/NetworkError.swift:36-55 | `errorDescription` is non-nil for every one of the eight cases |
| `NetworkErrors.LocalizedDescription` | Dictionary/Scenes/SearchScreen/SearchScreenViewModel.swift:67 | the message stored in `error` is the error's `errorDescription` |
| `NetworkErrors.ServerErrorMessageCarriesCode` | Dictionary/Core/Network/NetworkError.swift:44-45 | a server-error message starts with "Server error occurred", and the code can be read back from between the fixed prefix and suffix |
| `NetworkErrors.FixedMessagesAreNotServerErrors` | Dictionary/Core/Network/NetworkError.swift:37-54 | none of the seven data-free messages starts with "Server error occurred" |
| `NetworkErrors.FixedMessagesDistinct` | Dictionary/Core/Network/NetworkError.swift:37-54 | the seven data-free cases have pairwise different messages |
| `NetworkErrors.DescriptionInjective` | Dictionary/Core/Network/NetworkError.swift:36-55 | equal messages come from equal errors, so the message alone identifies the error and its code |
| `NetworkService.RequestURL` | Dictionary/Core/Network/NetworkServiceProtocol.swift:29 | the request URL is the base URL followed by the word, each character lower-cased in place |
| `NetworkService.RequestURLIgnoresCase` | Dictionary/Core/Network/NetworkServiceProtocol.swift:24-30 | two words give the same request URL (base URL plus lower-cased word) if and only if they differ only in the case of the ASCII letters A-Z |
| `NetworkService.FirstDefinition` | Dictionary/Core/Network/NetworkServiceProtocol.swift:46-52 | the inner block succeeds exactly on a decoded non-empty array, with element 0; otherwise it throws the decoder's error or `noData` |
| `NetworkService.Attempt` | Dictionary/Core/Network/NetworkServiceProtocol.swift:37-64 | the outer block throws a URL error only for a transport failure with that code, and never lets the decoder's error or `noData` escape |
| `NetworkService.TransportError` | Dictionary/Core/Network/NetworkServiceProtocol.swift:65-73 | not-connected or connection-lost gives `noInternetConnection`; timed-out gives `timeout`; any other code gives `serverError` with that code |
| `NetworkService.Classify` | Dictionary/Core/Network/NetworkServiceProtocol.swift:37-76 | success if and only if the status is 2xx and the body decodes to a non-empty array, returning element 0; a 2xx response otherwise gives `decodingError`; 404 gives `notFound`; 429 gives `rateLimitExceeded`; any other status `s` gives `serverError(s)`; a non-HTTP response gives `serverError(0)`; transport errors are classified by code; never `noData` or `invalidURL` |
| `NetworkService.RaisedErrorsPassThrough` | Dictionary/Core/Network/NetworkServiceProtocol.swift:65-76 | an error raised by the status switch reaches the caller unchanged and never went through the URL-error handler |
| `NetworkService.EmptyArrayIsDecodingError` | Dictionary/Core/Network/NetworkServiceProtocol.swift:46-55 | an empty 2xx array raises `noData` inside, but the caller sees `decodingError` |
| `NetworkService.FetchWordDefinition` | Dictionary/Core/Network/NetworkServiceProtocol.swift:29-32 | the result is `invalidURL` if and only if the request URL cannot be built; otherwise it is the classification of the server's answer to that URL |
| `NetworkService.UnbuildableURLMakesNoRequest` | Dictionary/Core/Network/NetworkServiceProtocol.swift:30-32 | with an unbuildable URL the result does not depend on the server: no request is made |
| `NetworkService.FetchIgnoresCase` | Dictionary/Core/Network/NetworkServiceProtocol.swift:30 | words that differ only in case get the same result |
| `DefinitionCache.Encode` | Dictionary/Scenes/SearchScreen/SearchScreenViewModel.swift:98-99 | decoding what was encoded gives back the entry |
| `DefinitionCache.NewRecord` | Dictionary/Scenes/SearchScreen/SearchScreenViewModel.swift:93-99 | the new record's key is the entry's own word lower-cased, its data decodes to the entry, and it is stamped with the current tick |
| `DefinitionCache.Decode` | Dictionary/Scenes/SearchScreen/SearchScreenViewModel.swift:80-81 | decoding succeeds exactly on stored data that holds an encoded entry, and returns that entry; missing or corrupt data gives nil |
| `DefinitionCache.FirstIndex` | Dictionary/Scenes/SearchScreen/SearchScreenViewModel.swift:76-80 | finds the first record stored under the key, with no earlier record under it; None if and only if no record has the key |
| `DefinitionCache.FetchFromCache` | Dictionary/Scenes/SearchScreen/SearchScreenViewModel.swift:75-88 | a failed read is a miss; otherwise the result is the decoded data of the first record stored under the lower-cased word, so a decodable first record is a hit returning its entry, and any hit is the decoded data of a record under that key |
| `DefinitionCache.UndecodableFirstRecordIsAMiss` | Dictionary/Scenes/SearchScreen/SearchScreenViewModel.swift:79-87 | if the first matching record's data is missing or does not decode, the lookup is a miss, even when a later record would decode |
| `DefinitionCache.FirstIndexAppend` | Dictionary/Scenes/SearchScreen/SearchScreenViewModel.swift:91-94 | appending a record changes the first match for a key only when the key had no record |
| `DefinitionCache.HitSurvivesSave` | Dictionary/Scenes/SearchScreen/SearchScreenViewModel.swift:91-94 | a cache hit stays the same hit after any later save |
| `DefinitionCache.SaveThenFetch` | Dictionary/Scenes/SearchScreen/SearchScreenViewModel.swift:75-105 | saving an entry under a new key makes every case variant of that word a hit that returns the entry |
| `DefinitionCache.InsertByRecency` | Dictionary/Scenes/SearchScreen/SearchScreenViewModel.swift:110 | inserting a record adds exactly that record, and keeps a newest-first list newest first |
| `DefinitionCache.SortByRecency` | Dictionary/Scenes/SearchScreen/SearchScreenViewModel.swift:109-113 | the fetch sorted by timestamp is newest first and a permutation of the store |
| `DefinitionCache.WordsByRecency` | Dictionary/Scenes/SearchScreen/SearchScreenViewModel.swift:109-114 | the seeded list has one word per stored record, with the same multiset of words: no cap and no de-duplication (the order is `SortByRecency`'s newest first) |
| `RecentSearches.Insert` | Dictionary/Scenes/SearchScreen/SearchScreenViewModel.swift:121-128 | the key ends up listed; an already listed key leaves the list unchanged; a new key goes in front, the old entries shift back by one, and exactly one trailing entry is dropped when the list would exceed ten; a list of at most ten stays at most ten, and a longer list never grows |
| `RecentSearches.Push` | Dictionary/Scenes/SearchScreen/SearchScreenViewModel.swift:121-123 | the lower-cased word is listed afterwards, and a list of at most ten stays at most ten |
| `RecentSearches.InsertKeepsDistinct` | Dictionary/Scenes/SearchScreen/SearchScreenViewModel.swift:122 | a list without repeats stays without repeats |
| `RecentSearches.InsertAllKeepsMostRecent` | Dictionary/Scenes/SearchScreen/SearchScreenViewModel.swift:121-128 | after distinct keys are pushed onto an empty list, it holds the last ten of them (or all, if fewer), newest first |
| `RecentSearches.OldestEvicted` | Dictionary/Scenes/SearchScreen/SearchScreenViewModel.swift:124-126 | with more than ten distinct keys pushed, every key older than the last ten has been evicted |
| `SearchScreen.SearchScreenViewModel.constructor` | Dictionary/Scenes/SearchScreen/SearchScreenViewModel.swift:33-38 | the session starts empty and not loading, and the recent list is seeded with every stored word, newest first (empty if the read fails) |
| `SearchScreen.SearchScreenViewModel.ClearSearch` | Dictionary/Scenes/SearchScreen/SearchScreenViewModel.swift:41-45 | the term becomes empty and the definition and error nil; the loading flag, the recent list and the cache are untouched |
| `SearchScreen.SearchScreenViewModel.SearchWord` | Dictionary/Scenes/SearchScreen/SearchScreenViewModel.swift:48-72 | an empty term changes nothing and calls nothing. On a cache hit: the cached entry, no error, no network call, recent list and cache unchanged. On a miss, the service gets the raw term. Success shows the entry, clears the error, appends one record with a newer tick, and pushes the word. Failure shows the description, keeps the old definition, and leaves cache and recent list unchanged. Loading ends false |
| `SearchScreen.SearchScreenViewModel.SaveToCache` | Dictionary/Scenes/SearchScreen/SearchScreenViewModel.swift:91-105 | appends exactly one record for the entry, stamped newer than every existing record |
| `SearchScreen.SearchScreenViewModel.LoadRecentSearches` | Dictionary/Scenes/SearchScreen/SearchScreenViewModel.swift:108-118 | the list becomes every stored word newest first, or is left alone when the read fails |
| `SearchScreen.SearchScreenViewModel.AddToRecentSearches` | Dictionary/Scenes/SearchScreen/SearchScreenViewModel.swift:121-128 | the in-place insert-at-front and remove-last give the list update of `RecentSearches.Push` |
| `SearchScreen.NextTick` | Dictionary/Scenes/SearchScreen/SearchScreenViewModel.swift:95 | the first clock reading is later than every persisted timestamp |
| `SearchScreen.ClearSearchTwice` | Dictionary/Scenes/SearchScreen/SearchScreenViewModel.swift:41-45 | clearing twice leaves the same session as clearing once |
| `SearchScreen.SecondSearchServedFromCache` | DictionaryTests/SearchScreenViewModelTests.swift:151-199 | after a successful lookup of an uncached word, where the server's `word` lower-cases to the same key as the search term, searching again in any letter case is served from the cache without calling the service; when the server returns another spelling the record is keyed by that spelling instead |
| `SearchScreen.FailureKeepsStaleDefinition` | Dictionary/Scenes/SearchScreen/SearchScreenViewModel.swift:66-70 | a failed lookup sets the error and leaves the previous definition on display |

## Left out

- Text.Lower: only the ASCII letters A-Z are lower-cased. Swift's `lowercased()` applies full Unicode case mapping, which is not modelled. Strings are compared character by character, whereas Swift's `String ==` (used by `recentSearches.contains`) compares by Unicode canonical equivalence.
- Concurrency is not modelled: the `Task`, `async`/`await`, `@MainActor` and the `actor` service. Each `searchWord` is one atomic step. So `isLoading` being true during a lookup is not observable, and races between overlapping searches are not modelled.
- The HTTP exchange is not modelled: `URLSession`, `URLRequest` and the 15-second timeout. The response is an input. `URL(string:)` is replaced by a predicate passed in as a parameter.
- The URL error codes are Foundation's raw values for not connected (-1009), connection lost (-1005) and timed out (-1001).
- NetworkService.Classify: a thrown error that is neither a `URLError` nor a `NetworkError` is not modelled. The source rethrows such an error unchanged. The model's transport failures carry only URL error codes.
- JSON coding is not modelled. Decoding a response body is an input, `Option<seq<entry>>`. A cached payload is an encoded entry, corrupt data or missing data. Encoding an entry is assumed to succeed and to decode back to that entry.
- SearchScreen.SearchScreenViewModel.SaveToCache: does not model a failed encode or a failed `save()`. In the source, the new record stays in the context in those cases, possibly without data.
- Core Data is not modelled beyond the sequence of records: the container, `Persistence.swift` and the fetch order. An unsorted fetch is taken in insertion order. A sorted fetch breaks timestamp ties in an order the model fixes.
- `compactMap` drops records without a word. The model has no such records, because every saved record gets a word.
- `print` logging is not modelled. `Date()` is replaced by a counter.
- The SwiftUI views and the app entry point are not part of this model.
- Pushing eleven distinct words keeps the last ten. This is stated on lower-cased keys (`RecentSearches.InsertAllKeepsMostRecent`), not on raw words.
