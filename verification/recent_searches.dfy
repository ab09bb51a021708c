/** The recent-searches list: lower-cased words, newest first. A push adds a
    word only when it is not already listed and then trims the list back to
    ten entries by dropping the last one. The list logic does not depend on
    the element type, so it is stated for any type of key and used with
    strings. */
module RecentSearches {
  import Text

  const Capacity: nat := 10

  predicate Distinct<K(==)>(s: seq<K>) {
    forall i, j :: 0 <= i < j < |s| ==> s[i] != s[j]
  }

  /** Puts `key` in front unless it is already listed (it is then not moved),
      and drops the last element when that makes the list longer than ten. */
  function Insert<K(==)>(recent: seq<K>, key: K): (r: seq<K>)
    ensures key in r
    ensures key in recent ==> r == recent
    ensures key !in recent ==>
              r[0] == key &&
              |r| == (if |recent| >= Capacity then |recent| else |recent| + 1) &&
              forall k {:trigger r[k]} :: 0 < k < |r| ==> r[k] == recent[k - 1]
    ensures |recent| <= Capacity ==> |r| <= Capacity
    ensures |recent| >= Capacity ==> |r| <= |recent|
  {
    if key in recent then recent
    else
      var inserted := [key] + recent;
      if |inserted| > Capacity then
        assert inserted[..|inserted| - 1][0] == key;
        inserted[..|inserted| - 1]
      else
        inserted
  }

  /** `addToRecentSearches(word:)` as a function of the old list: the word is
      lower-cased first. */
  function Push(recent: seq<string>, word: string): (r: seq<string>)
    ensures Text.Lower(word) in r
    ensures |recent| <= Capacity ==> |r| <= Capacity
  {
    Insert(recent, Text.Lower(word))
  }

  /** A list without repeats stays without repeats. */
  lemma InsertKeepsDistinct<K>(recent: seq<K>, key: K)
    requires Distinct(recent)
    ensures Distinct(Insert(recent, key))
  {
    var r := Insert(recent, key);
    if key !in recent {
      forall i, j | 0 <= i < j < |r| ensures r[i] != r[j] {
        assert r[j] == recent[j - 1];
      }
    }
  }

  /** Inserts `keys` one after the other, first to last. */
  function InsertAll<K(==)>(recent: seq<K>, keys: seq<K>): seq<K>
    decreases |keys|
  {
    if keys == [] then recent
    else Insert(InsertAll(recent, keys[..|keys| - 1]), keys[|keys| - 1])
  }

  /** Starting from an empty list and inserting distinct keys, the list holds
      the last (at most ten) of them, newest first. */
  lemma {:induction false} InsertAllKeepsMostRecent<K>(keys: seq<K>)
    requires Distinct(keys)
    ensures var r := InsertAll([], keys);
      |r| == (if |keys| < Capacity then |keys| else Capacity) &&
      forall k {:trigger r[k]} :: 0 <= k < |r| ==> r[k] == keys[|keys| - 1 - k]
  {
    if keys != [] {
      var n := |keys|;
      var prefix := keys[..n - 1];
      var last := keys[n - 1];
      InsertAllKeepsMostRecent(prefix);
      var before := InsertAll([], prefix);
      assert forall k {:trigger before[k]} :: 0 <= k < |before| ==> before[k] == keys[n - 2 - k];
      assert last !in before by {
        forall k | 0 <= k < |before| ensures before[k] != last {
          assert before[k] == keys[n - 2 - k];
        }
      }
    }
  }

  /** With more than ten distinct keys inserted, the oldest ones are gone. */
  lemma OldestEvicted<K>(keys: seq<K>, i: nat)
    requires Distinct(keys)
    requires i + Capacity < |keys|
    ensures keys[i] !in InsertAll([], keys)
  {
    InsertAllKeepsMostRecent(keys);
  }
}
