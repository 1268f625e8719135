/**
 * The translation catalog: language -> category -> message -> translation,
 * where the empty translation means "not translated yet".
 *
 * Also the two reconciliation rules every driver applies on save, as
 * reference definitions: the selective update (import) and the fill from
 * previous data (export).
 */
module Catalogs {
  import opened Ordering

  type Messages = map<string, string>
  type Categories = map<string, Messages>
  type Catalog = map<string, Categories>

  /** The entries of a PHP array in the order the model iterates it: ascending keys. */
  function Entries<V(==)>(m: map<string, V>): (r: seq<(string, V)>)
    ensures |r| == |m|
    ensures forall i | 0 <= i < |r| :: r[i].0 in m && m[r[i].0] == r[i].1
    ensures forall k | k in m :: exists i | 0 <= i < |r| :: r[i].0 == k
  {
    var ks := SortedKeys(m.Keys);
    var r := seq(|ks|, i requires 0 <= i < |ks| => (ks[i], m[ks[i]]));
    KeysListed(m, ks, r);
    r
  }

  /** Entries visits the keys in ascending order. */
  lemma EntriesAscending<V>(m: map<string, V>)
    ensures forall i, j | 0 <= i < j < |Entries(m)| :: LexLess(Entries(m)[i].0, Entries(m)[j].0)
  {
    var ks := SortedKeys(m.Keys);
    SortedKeysAscending(m.Keys);
    assert forall i | 0 <= i < |ks| :: Entries(m)[i].0 == ks[i];
  }

  lemma KeysListed<V>(m: map<string, V>, ks: seq<string>, r: seq<(string, V)>)
    requires forall k :: k in ks <==> k in m.Keys
    requires |r| == |ks| && forall i | 0 <= i < |ks| :: r[i].0 == ks[i]
    ensures forall k | k in m :: exists i | 0 <= i < |r| :: r[i].0 == k
  {
    forall k | k in m ensures exists i | 0 <= i < |r| :: r[i].0 == k {
      var i :| 0 <= i < |ks| && ks[i] == k;
      assert r[i].0 == k;
    }
  }

  /** The keys of a sequence of pairs. */
  function KeysOf<V(==)>(s: seq<(string, V)>): (r: set<string>)
    ensures forall k :: k in r <==> exists i | 0 <= i < |s| :: s[i].0 == k
  {
    set i | 0 <= i < |s| :: s[i].0
  }

  /** The array a sequence of pairs builds when assigned in order: a later pair wins. */
  function ToMap<V(==)>(s: seq<(string, V)>): (r: map<string, V>)
    ensures r.Keys == KeysOf(s)
  {
    if s == [] then map[]
    else
      var init := s[..|s| - 1];
      assert forall i | 0 <= i < |init| :: init[i] == s[i];
      ToMap(init)[s[|s| - 1].0 := s[|s| - 1].1]
  }

  /** A listing of m: every pair agrees with m and every key of m occurs. */
  predicate Lists<V(==)>(s: seq<(string, V)>, m: map<string, V>)
  {
    (forall i | 0 <= i < |s| :: s[i].0 in m && m[s[i].0] == s[i].1) &&
    (forall k | k in m :: exists i | 0 <= i < |s| :: s[i].0 == k)
  }

  lemma {:induction false} ToMapAgrees<V>(s: seq<(string, V)>, m: map<string, V>)
    requires forall i | 0 <= i < |s| :: s[i].0 in m && m[s[i].0] == s[i].1
    ensures forall k | k in ToMap(s) :: k in m && ToMap(s)[k] == m[k]
  {
    if s != [] {
      ToMapAgrees(s[..|s| - 1], m);
    }
  }

  /** Assigning a listing of m in order rebuilds m, whatever the order and repetitions. */
  lemma ToMapOfListing<V>(s: seq<(string, V)>, m: map<string, V>)
    requires Lists(s, m)
    ensures ToMap(s) == m
  {
    ToMapAgrees(s, m);
    assert ToMap(s).Keys == m.Keys;
  }

  lemma EntriesList<V>(m: map<string, V>)
    ensures Lists(Entries(m), m)
  {
  }

  /** Two ways of writing "the union, with k set to x". */
  lemma UpdateThenUnion<V>(a: map<string, V>, k: string, x: V, b: map<string, V>)
    requires k !in b
    ensures a[k := x] + b == (a + b)[k := x]
    ensures a + b[k := x] == (a + b)[k := x]
  {
  }

  // ---- selective update: import keeps the existing keys ----

  /** An incoming value replaces an existing one only when it is present and non-empty. */
  function UpdateMessages(existing: Messages, incoming: Messages): (r: Messages)
  {
    map m | m in existing :: if m in incoming && incoming[m] != "" then incoming[m] else existing[m]
  }

  /** updateTranslationsArray on one message map: copy, then overwrite from the non-empty incoming values. */
  method UpdateMessagesArray(existing: Messages, incoming: Messages) returns (result: Messages)
    ensures result == UpdateMessages(existing, incoming)
  {
    result := existing;
    var left := existing.Keys;
    while left != {}
      invariant left <= existing.Keys
      invariant result.Keys == existing.Keys
      invariant forall m | m in existing ::
        result[m] == if m !in left && m in incoming && incoming[m] != "" then incoming[m] else existing[m]
      decreases |left|
    {
      var message := Least(left);
      left := left - {message};
      if message in incoming && incoming[message] != "" {
        result := result[message := incoming[message]];
      }
    }
  }

  function UpdateCategories(existing: Categories, incoming: Categories): (r: Categories)
  {
    map c | c in existing :: if c in incoming then UpdateMessages(existing[c], incoming[c]) else existing[c]
  }

  /** The update keeps exactly the existing categories and messages. */
  lemma UpdateKeepsKeys(existing: Categories, incoming: Categories)
    ensures UpdateCategories(existing, incoming).Keys == existing.Keys
    ensures forall c | c in existing :: UpdateCategories(existing, incoming)[c].Keys == existing[c].Keys
  {
  }

  /** A translation changes only to a non-empty incoming translation of the same category and message. */
  lemma UpdateOnlyNonEmpty(existing: Categories, incoming: Categories, c: string, m: string)
    requires c in existing && m in existing[c]
    ensures var r := UpdateCategories(existing, incoming)[c][m];
      if c in incoming && m in incoming[c] && incoming[c][m] != "" then r == incoming[c][m] else r == existing[c][m]
  {
  }

  /** Updating with itself or with nothing changes nothing. */
  lemma UpdateNeutral(existing: Categories)
    ensures UpdateCategories(existing, existing) == existing
    ensures UpdateCategories(existing, map[]) == existing
  {
    forall c | c in existing ensures UpdateMessages(existing[c], existing[c]) == existing[c] {
      assert UpdateMessages(existing[c], existing[c]).Keys == existing[c].Keys;
    }
  }

  /** A second update with the same data changes nothing more. */
  lemma UpdateIdempotent(existing: Categories, incoming: Categories)
    ensures UpdateCategories(UpdateCategories(existing, incoming), incoming) == UpdateCategories(existing, incoming)
  {
    var once := UpdateCategories(existing, incoming);
    forall c | c in once
      ensures (if c in incoming then UpdateMessages(once[c], incoming[c]) else once[c]) == once[c]
    {
      if c in incoming {
        assert UpdateMessages(once[c], incoming[c]).Keys == once[c].Keys;
      }
    }
  }

  // ---- fill: export keeps the incoming keys ----

  /** An empty incoming translation takes a non-empty previous one; nothing else changes. */
  function FillMessages(incoming: Messages, previous: Messages): (r: Messages)
  {
    map m | m in incoming :: if incoming[m] == "" && m in previous && previous[m] != "" then previous[m] else incoming[m]
  }

  /** The inner loop of fillTranslationsArray: copy, then fill the empty values from non-empty previous ones. */
  method FillMessagesArray(incoming: Messages, previous: Messages) returns (result: Messages)
    ensures result == FillMessages(incoming, previous)
  {
    result := incoming;
    var left := incoming.Keys;
    while left != {}
      invariant left <= incoming.Keys
      invariant result.Keys == incoming.Keys
      invariant forall m | m in incoming ::
        result[m] == if m !in left && incoming[m] == "" && m in previous && previous[m] != "" then previous[m] else incoming[m]
      decreases |left|
    {
      var message := Least(left);
      left := left - {message};
      if incoming[message] == "" && message in previous {
        var oldTranslation := previous[message];
        if oldTranslation != "" {
          result := result[message := oldTranslation];
        }
      }
    }
  }

  function FillCategories(incoming: Categories, previous: Categories): (r: Categories)
  {
    map c | c in incoming :: if c in previous then FillMessages(incoming[c], previous[c]) else incoming[c]
  }

  /** The fill keeps exactly the incoming categories and messages. */
  lemma FillKeepsKeys(incoming: Categories, previous: Categories)
    ensures FillCategories(incoming, previous).Keys == incoming.Keys
    ensures forall c | c in incoming :: FillCategories(incoming, previous)[c].Keys == incoming[c].Keys
  {
  }

  /** A value changes only when it is empty and previous data has a non-empty one, which then replaces it. */
  lemma FillOnlyEmpty(incoming: Categories, previous: Categories, c: string, m: string)
    requires c in incoming && m in incoming[c]
    ensures var r := FillCategories(incoming, previous)[c][m];
      if incoming[c][m] == "" && c in previous && m in previous[c] && previous[c][m] != "" then r == previous[c][m] else r == incoming[c][m]
  {
  }

  /** Filling from itself changes nothing. */
  lemma FillSelf(data: Categories)
    ensures FillCategories(data, data) == data
  {
    forall c | c in data ensures FillMessages(data[c], data[c]) == data[c] {
      assert FillMessages(data[c], data[c]).Keys == data[c].Keys;
    }
  }

  /** After a fill, a message is left empty only where previous data has nothing better. */
  lemma FillLeavesEmptyOnlyWithoutFallback(incoming: Categories, previous: Categories, c: string, m: string)
    requires c in incoming && m in incoming[c]
    requires FillCategories(incoming, previous)[c][m] == ""
    ensures incoming[c][m] == ""
    ensures c !in previous || m !in previous[c] || previous[c][m] == ""
  {
  }
}
