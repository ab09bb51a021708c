/** The search screen's view model: the observable search session and the
    cache-then-network lookup that drives it. Each `searchWord` runs here as
    one atomic step; the network service and the store's read faults are
    inputs. */
module SearchScreen {
  import opened Wrappers
  import opened WordDefinitions
  import opened NetworkErrors
  import opened DefinitionCache
  import RecentSearches
  import Text

  /** A network service: the outcome of `fetchWordDefinition(word:)` for each word. */
  type Service = string -> Result<WordDefinitionResponse, NetworkError>

  class SearchScreenViewModel {
    /** The search term entered by the user. */
    var searchTerm: string
    /** The definition on display. */
    var definition: Option<WordDefinitionResponse>
    /** Whether a lookup is in progress. */
    var isLoading: bool
    /** The error message on display. */
    var error: Option<string>
    /** Recently searched words, newest first. */
    var recentSearches: seq<string>
    /** The persistent cache, in insertion order. */
    var store: seq<CacheRecord>
    /** The clock that stamps new cache records. */
    var clock: nat

    /** Every stored record is older than the clock's next reading. */
    ghost predicate Valid()
      reads this
    {
      forall i :: 0 <= i < |store| ==> store[i].timestamp < clock
    }

    /** `init`: opens the store holding `persisted` and seeds the recent list
        from it; when reading the store fails the list stays empty. */
    constructor (persisted: seq<CacheRecord>, readFails: bool)
      ensures Valid()
      ensures searchTerm == "" && definition == None && !isLoading && error == None
      ensures store == persisted
      ensures recentSearches == if readFails then [] else WordsByRecency(persisted)
    {
      searchTerm := "";
      definition := None;
      isLoading := false;
      error := None;
      recentSearches := [];
      store := persisted;
      clock := NextTick(persisted);
      new;
      assert Valid();
      LoadRecentSearches(readFails);
    }

    /** `clearSearch`: empties the term and hides the definition and the error. */
    method ClearSearch()
      modifies this`searchTerm, this`definition, this`error
      ensures searchTerm == "" && definition == None && error == None
      ensures isLoading == old(isLoading) && recentSearches == old(recentSearches)
      ensures store == old(store) && clock == old(clock)
    {
      searchTerm := "";
      definition := None;
      error := None;
    }

    /** `searchWord`: serve the term from the cache when a record for it
        decodes, otherwise ask the network service; on success show, cache
        and remember the entry, on failure show the error's description.
        Returns the word passed to the service, None when it was not called. */
    method SearchWord(service: Service, cacheReadFails: bool) returns (request: Option<string>)
      requires Valid()
      modifies this
      ensures Valid()
      ensures searchTerm == old(searchTerm)
      // an empty term: nothing happens
      ensures old(searchTerm) == "" ==>
                request == None &&
                definition == old(definition) && isLoading == old(isLoading) && error == old(error) &&
                recentSearches == old(recentSearches) && store == old(store) && clock == old(clock)
      ensures old(searchTerm) != "" ==> !isLoading
      // a cache hit: the cached entry, no network call, no other change
      ensures old(searchTerm) != "" && old(FetchFromCache(store, searchTerm, cacheReadFails)).Some? ==>
                request == None &&
                definition == old(FetchFromCache(store, searchTerm, cacheReadFails)) && error == None &&
                recentSearches == old(recentSearches) && store == old(store) && clock == old(clock)
      // a miss: the service is asked for the raw term
      ensures old(searchTerm) != "" && old(FetchFromCache(store, searchTerm, cacheReadFails)).None? ==>
                request == Some(old(searchTerm))
      ensures old(searchTerm) != "" && old(FetchFromCache(store, searchTerm, cacheReadFails)).None? &&
              service(old(searchTerm)).Success? ==>
                var entry := service(old(searchTerm)).value;
                definition == Some(entry) && error == None &&
                store == old(store) + [NewRecord(entry, old(clock))] && clock == old(clock) + 1 &&
                recentSearches == RecentSearches.Push(old(recentSearches), entry.word)
      ensures old(searchTerm) != "" && old(FetchFromCache(store, searchTerm, cacheReadFails)).None? &&
              service(old(searchTerm)).Failure? ==>
                error == Some(LocalizedDescription(service(old(searchTerm)).error)) &&
                definition == old(definition) &&
                recentSearches == old(recentSearches) && store == old(store) && clock == old(clock)
    {
      if searchTerm == "" {
        return None;
      }
      isLoading := true;
      error := None;
      var cached := FetchFromCache(store, searchTerm, cacheReadFails);
      if cached.Some? {
        definition := cached;
        isLoading := false;
        return None;
      }
      request := Some(searchTerm);
      match service(searchTerm) {
        case Success(entry) =>
          definition := Some(entry);
          SaveToCache(entry);
          AddToRecentSearches(entry.word);
        case Failure(e) =>
          error := Some(LocalizedDescription(e));
      }
      isLoading := false;
    }

    /** `saveToCache(definition:)`: always inserts a new record, keyed by the
        entry's own word lower-cased and stamped newer than every record. */
    method SaveToCache(entry: WordDefinitionResponse)
      requires Valid()
      modifies this`store, this`clock
      ensures Valid()
      ensures store == old(store) + [NewRecord(entry, old(clock))] && clock == old(clock) + 1
      ensures forall i :: 0 <= i < |old(store)| ==> old(store)[i].timestamp < store[|store| - 1].timestamp
    {
      store := store + [NewRecord(entry, clock)];
      clock := clock + 1;
    }

    /** `loadRecentSearches`: every stored word, newest first; a failed read
        leaves the list as it was. */
    method LoadRecentSearches(readFails: bool)
      modifies this`recentSearches
      ensures recentSearches == if readFails then old(recentSearches) else WordsByRecency(store)
    {
      if !readFails {
        recentSearches := WordsByRecency(store);
      }
    }

    /** `addToRecentSearches(word:)`: in place, with an insert at the front and
        a removal at the back. */
    method AddToRecentSearches(word: string)
      modifies this`recentSearches
      ensures recentSearches == RecentSearches.Push(old(recentSearches), word)
    {
      var key := Text.Lower(word);
      if key !in recentSearches {
        recentSearches := [key] + recentSearches;
        if |recentSearches| > RecentSearches.Capacity {
          recentSearches := recentSearches[..|recentSearches| - 1];
        }
      }
    }
  }

  /** A clock reading later than every timestamp in `records`. */
  function NextTick(records: seq<CacheRecord>): (t: nat)
    ensures forall i :: 0 <= i < |records| ==> records[i].timestamp < t
  {
    if records == [] then 0
    else
      var rest := NextTick(records[1..]);
      if records[0].timestamp < rest then rest else records[0].timestamp + 1
  }

  // ---- sessions of several calls ----

  /** Clearing twice leaves the session as clearing once does. */
  method ClearSearchTwice(vm: SearchScreenViewModel)
    modifies vm
    ensures vm.searchTerm == "" && vm.definition == None && vm.error == None
    ensures vm.isLoading == old(vm.isLoading) && vm.recentSearches == old(vm.recentSearches)
    ensures vm.store == old(vm.store) && vm.clock == old(vm.clock)
  {
    vm.ClearSearch();
    vm.ClearSearch();
  }

  /** After a successful network lookup of a word the cache did not hold, and
      for which the server returns the same word, searching again in any case
      is served from the cache: the service is not called a second time. */
  method SecondSearchServedFromCache(vm: SearchScreenViewModel, first: string, second: string, service: Service, later: Service)
    returns (firstRequest: Option<string>, secondRequest: Option<string>)
    requires vm.Valid()
    requires first != ""
    requires forall i :: 0 <= i < |vm.store| ==> vm.store[i].word != Text.Lower(first)
    requires service(first).Success? && Text.Lower(service(first).value.word) == Text.Lower(first)
    requires Text.EqualIgnoringCase(first, second)
    modifies vm
    ensures firstRequest == Some(first) && secondRequest == None
    ensures vm.definition == Some(service(first).value) && vm.error == None
  {
    vm.searchTerm := first;
    firstRequest := vm.SearchWord(service, false);
    var entry := service(first).value;
    assert vm.store == old(vm.store) + [NewRecord(entry, old(vm.clock))];
    Text.LowerEqualIff(first, second);
    SaveThenFetch(old(vm.store), entry, old(vm.clock), second);
    vm.ClearSearch();
    vm.searchTerm := second;
    secondRequest := vm.SearchWord(later, false);
  }

  /** A failed lookup after a successful one shows the error beside the old
      definition: the definition is not cleared. */
  method FailureKeepsStaleDefinition(vm: SearchScreenViewModel, service: Service, e: NetworkError)
    requires vm.Valid()
    requires vm.searchTerm != "" && vm.definition.Some?
    requires FetchFromCache(vm.store, vm.searchTerm, false).None?
    requires service(vm.searchTerm) == Failure(e)
    modifies vm
    ensures vm.definition == old(vm.definition) && vm.definition.Some?
    ensures vm.error == Some(LocalizedDescription(e))
  {
    var _ := vm.SearchWord(service, false);
  }
}
