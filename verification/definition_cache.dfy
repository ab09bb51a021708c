/** The on-device cache of fetched entries: an append-only sequence of
    records, each holding the lower-cased word, the JSON-encoded entry and a
    timestamp. Lookups take the first record whose word matches; the
    recent-searches list is seeded from all records, newest first. */
module DefinitionCache {
  import opened Wrappers
  import opened WordDefinitions
  import Text

  /** The stored JSON blob: an encoded entry, bytes that do not decode, or no
      data at all. */
  datatype Payload = Json(entry: WordDefinitionResponse) | Corrupt | Missing

  /** One stored record. `timestamp` is a logical clock reading. */
  datatype CacheRecord = CacheRecord(word: string, jsonData: Payload, timestamp: nat)

  /** JSON encoding of an entry for storage. */
  function Encode(e: WordDefinitionResponse): (p: Payload)
    ensures Decode(p) == Some(e)
  {
    Json(e)
  }

  /** JSON decoding of stored data; fails on corrupt or missing data. */
  function Decode(p: Payload): (r: Option<WordDefinitionResponse>)
    ensures r.Some? <==> p.Json?
    ensures p.Json? ==> r.value == p.entry
  {
    match p
    case Json(e) => Some(e)
    case Corrupt => None
    case Missing => None
  }

  /** The record `saveToCache` inserts: keyed by the server's spelling of the
      word, lower-cased. */
  function NewRecord(e: WordDefinitionResponse, now: nat): (r: CacheRecord)
    ensures r.word == Text.Lower(e.word) && Decode(r.jsonData) == Some(e) && r.timestamp == now
  {
    CacheRecord(Text.Lower(e.word), Encode(e), now)
  }

  /** Position of the first record stored under `key`, as `fetch(request).first`. */
  function FirstIndex(store: seq<CacheRecord>, key: string): (r: Option<nat>)
    ensures r.Some? ==> r.value < |store| && store[r.value].word == key &&
                        forall j :: 0 <= j < r.value ==> store[j].word != key
    ensures r.None? <==> forall j :: 0 <= j < |store| ==> store[j].word != key
  {
    if store == [] then None
    else if store[0].word == key then Some(0)
    else match FirstIndex(store[1..], key)
      case None => None
      case Some(i) => Some(i + 1)
  }

  /** `fetchFromCache(word:)`: the entry decoded from the first record stored
      under the lower-cased word. A failed read, a missing record, missing data
      and data that does not decode all give None. */
  function FetchFromCache(store: seq<CacheRecord>, word: string, readFails: bool): (r: Option<WordDefinitionResponse>)
    ensures r.Some? ==>
              !readFails &&
              exists i :: 0 <= i < |store| && store[i].word == Text.Lower(word) && Decode(store[i].jsonData) == r
    ensures readFails ==> r.None?
    ensures forall i :: 0 <= i < |store| && store[i].word == Text.Lower(word) &&
                        (forall j :: 0 <= j < i ==> store[j].word != Text.Lower(word)) ==>
                          r == (if readFails then None else Decode(store[i].jsonData))
  {
    if readFails then None
    else match FirstIndex(store, Text.Lower(word))
      case None => None
      case Some(i) => Decode(store[i].jsonData)
  }

  /** Only the first record stored under a key is consulted: when its data is
      missing or does not decode, the lookup is a miss even if a later record
      under the same key would decode. */
  lemma UndecodableFirstRecordIsAMiss(store: seq<CacheRecord>, word: string, i: nat)
    requires i < |store| && store[i].word == Text.Lower(word) && Decode(store[i].jsonData).None?
    requires forall j :: 0 <= j < i ==> store[j].word != Text.Lower(word)
    ensures FetchFromCache(store, word, false).None?
  {
    var first := FirstIndex(store, Text.Lower(word));
    assert first.Some?;
    assert first.value == i;
  }

  /** Appending a record never changes which record a key finds first, unless
      the key had none. */
  lemma {:induction false} FirstIndexAppend(store: seq<CacheRecord>, r: CacheRecord, key: string)
    ensures FirstIndex(store + [r], key) ==
      if FirstIndex(store, key).Some? then FirstIndex(store, key)
      else if r.word == key then Some(|store|)
      else None
  {
    if store != [] {
      assert (store + [r])[1..] == store[1..] + [r];
      FirstIndexAppend(store[1..], r, key);
    }
  }

  /** A cache hit stays a hit, with the same entry, after any record is saved. */
  lemma HitSurvivesSave(store: seq<CacheRecord>, r: CacheRecord, word: string)
    requires FetchFromCache(store, word, false).Some?
    ensures FetchFromCache(store + [r], word, false) == FetchFromCache(store, word, false)
  {
    FirstIndexAppend(store, r, Text.Lower(word));
    var i := FirstIndex(store, Text.Lower(word)).value;
    assert (store + [r])[i] == store[i];
  }

  /** Saving an entry under a key that had no record makes every spelling of
      that word (any case) a cache hit for the saved entry. */
  lemma SaveThenFetch(store: seq<CacheRecord>, e: WordDefinitionResponse, now: nat, word: string)
    requires Text.Lower(word) == Text.Lower(e.word)
    requires forall j :: 0 <= j < |store| ==> store[j].word != Text.Lower(word)
    ensures FetchFromCache(store + [NewRecord(e, now)], word, false) == Some(e)
  {
    FirstIndexAppend(store, NewRecord(e, now), Text.Lower(word));
  }

  // ---- seeding the recent-searches list ----

  /** Records ordered by timestamp, newest first. */
  predicate NewestFirst(s: seq<CacheRecord>) {
    forall i, j :: 0 <= i < j < |s| ==> s[i].timestamp >= s[j].timestamp
  }

  function InsertByRecency(r: CacheRecord, s: seq<CacheRecord>): (t: seq<CacheRecord>)
    ensures multiset(t) == multiset(s) + multiset{r}
    ensures NewestFirst(s) ==> NewestFirst(t)
  {
    if s == [] || r.timestamp >= s[0].timestamp then
      [r] + s
    else
      var rest := InsertByRecency(r, s[1..]);
      assert s == [s[0]] + s[1..];
      assert NewestFirst(s) ==> NewestFirst([s[0]] + rest) by {
        if NewestFirst(s) {
          NewestStaysFirst(r, s, rest);
        }
      }
      [s[0]] + rest
  }

  /** The newest record of a newest-first list stays in front when a
      permutation of the rest plus an older record follows it. */
  lemma NewestStaysFirst(r: CacheRecord, s: seq<CacheRecord>, rest: seq<CacheRecord>)
    requires s != [] && NewestFirst(s) && r.timestamp < s[0].timestamp
    requires NewestFirst(rest) && multiset(rest) == multiset(s[1..]) + multiset{r}
    ensures NewestFirst([s[0]] + rest)
  {
    forall k | 0 <= k < |rest| ensures rest[k].timestamp <= s[0].timestamp {
      assert rest[k] in multiset(rest);
      if rest[k] != r {
        assert rest[k] in multiset(s[1..]);
        var m :| 0 <= m < |s[1..]| && s[1..][m] == rest[k];
        assert s[m + 1] == rest[k];
      }
    }
    var t := [s[0]] + rest;
    forall i, j | 0 <= i < j < |t| ensures t[i].timestamp >= t[j].timestamp {
      assert t[j] == rest[j - 1];
      if i > 0 {
        assert t[i] == rest[i - 1];
      }
    }
  }

  /** The fetch sorted by `timestamp` descending. */
  function SortByRecency(s: seq<CacheRecord>): (t: seq<CacheRecord>)
    ensures NewestFirst(t) && multiset(t) == multiset(s)
  {
    if s == [] then []
    else
      assert s == [s[0]] + s[1..];
      InsertByRecency(s[0], SortByRecency(s[1..]))
  }

  /** The word of each record, in order. */
  function Words(s: seq<CacheRecord>): (words: seq<string>)
    ensures |words| == |s|
    ensures forall i {:trigger words[i]} :: 0 <= i < |s| ==> words[i] == s[i].word
  {
    if s == [] then [] else [s[0].word] + Words(s[1..])
  }

  /** `loadRecentSearches`: the word of every record, newest first. */
  function WordsByRecency(store: seq<CacheRecord>): (r: seq<string>)
    ensures |r| == |store|
    ensures multiset(r) == multiset(Words(store))
  {
    WordsOfSort(store);
    var sorted := SortByRecency(store);
    assert |sorted| == |multiset(sorted)| == |multiset(store)| == |store|;
    Words(sorted)
  }

  lemma WordsOfCons(x: CacheRecord, s: seq<CacheRecord>)
    ensures multiset(Words([x] + s)) == multiset{x.word} + multiset(Words(s))
  {
    assert ([x] + s)[1..] == s;
    assert Words([x] + s) == [x.word] + Words(s);
  }

  lemma WordsOfConsStep(x: CacheRecord, rest: seq<CacheRecord>, tail: seq<CacheRecord>, r: CacheRecord)
    requires multiset(Words(rest)) == multiset(Words(tail)) + multiset{r.word}
    ensures multiset(Words([x] + rest)) == multiset(Words([x] + tail)) + multiset{r.word}
  {
    WordsOfCons(x, rest);
    WordsOfCons(x, tail);
  }

  lemma {:induction false} WordsOfInsert(r: CacheRecord, s: seq<CacheRecord>)
    ensures multiset(Words(InsertByRecency(r, s))) == multiset(Words(s)) + multiset{r.word}
  {
    if s == [] || r.timestamp >= s[0].timestamp {
      WordsOfCons(r, s);
    } else {
      WordsOfInsert(r, s[1..]);
      WordsOfConsStep(s[0], InsertByRecency(r, s[1..]), s[1..], r);
      assert s == [s[0]] + s[1..];
    }
  }

  lemma {:induction false} WordsOfSort(s: seq<CacheRecord>)
    ensures multiset(Words(SortByRecency(s))) == multiset(Words(s))
  {
    if s != [] {
      WordsOfSort(s[1..]);
      WordsOfInsert(s[0], SortByRecency(s[1..]));
    }
  }
}
