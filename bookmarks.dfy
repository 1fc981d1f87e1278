/**
 * The URL bookmark store (main.py:71-96): a map from `**`-prefixed keys to
 * URLs, kept in bookmarks.json, listed one `'key: url` line per entry, and
 * consulted when a GET or POST names a URL.
 */
module Bookmarks {
  import opened Options
  import opened Text

  /** Bookmark keys must start with this. */
  const KeyPrefix := "**"

  const BadKey := "'Bookmark keys must start with **"
  const Saved := "'Bookmark saved"
  const NoBookmarks := "'No bookmarks found"

  /**
   * load_bookmarks: the map the file holds, or the empty map when the file is
   * missing or cannot be read as one.
   */
  function Load(file: Option<map<string, string>>): map<string, string> {
    if file.Some? then file.value else map[]
  }

  /**
   * resolve_bookmark: a `**` key names its stored URL when there is one; an
   * unknown key and any other text stand for themselves.
   */
  function Resolve(m: map<string, string>, s: string): (r: string)
    ensures StartsWith(s, KeyPrefix) && s in m ==> r == m[s]
    ensures !(StartsWith(s, KeyPrefix) && s in m) ==> r == s
  {
    if StartsWith(s, KeyPrefix) then (if s in m then m[s] else s) else s
  }

  /**
   * handle_bookmark's update of the map: the key now maps to the URL and
   * every other entry is as it was; a key without the prefix changes nothing.
   */
  function Store(m: map<string, string>, key: string, url: string): (r: map<string, string>)
    ensures StartsWith(key, KeyPrefix) ==> key in r && r[key] == url
    ensures !StartsWith(key, KeyPrefix) ==> r == m
    ensures forall k :: k != key ==> (k in r <==> k in m)
    ensures forall k :: k != key && k in m ==> r[k] == m[k]
    ensures r.Keys == m.Keys || r.Keys == m.Keys + {key}
  {
    if StartsWith(key, KeyPrefix) then m[key := url] else m
  }

  /** handle_bookmark's response. */
  function StoreReply(key: string): (r: string)
    ensures r == Saved <==> StartsWith(key, KeyPrefix)
    ensures r == BadKey <==> !StartsWith(key, KeyPrefix)
  {
    if StartsWith(key, KeyPrefix) then Saved else BadKey
  }

  /** A stored bookmark resolves to its URL. */
  lemma ResolveAfterStore(m: map<string, string>, key: string, url: string)
    requires StartsWith(key, KeyPrefix)
    ensures Resolve(Store(m, key, url), key) == url
  {
  }

  /** Storing one key does not change how any other text resolves. */
  lemma ResolveOtherAfterStore(m: map<string, string>, key: string, url: string, s: string)
    requires s != key
    ensures Resolve(Store(m, key, url), s) == Resolve(m, s)
  {
  }

  /** Text without the prefix never consults the store. */
  lemma ResolvePlain(m: map<string, string>, m': map<string, string>, s: string)
    requires !StartsWith(s, KeyPrefix)
    ensures Resolve(m, s) == s && Resolve(m', s) == s
  {
  }

  /** One line of the listing. */
  function Entry(key: string, url: string): string {
    "'" + key + ": " + url
  }

  /** The keys of m in the order given, skipping names m does not hold. */
  function InOrder(m: map<string, string>, order: seq<string>): (ks: seq<string>)
    ensures forall i :: 0 <= i < |ks| ==> ks[i] in m && ks[i] in order
    ensures |ks| <= |order|
  {
    if order == [] then []
    else (if order[0] in m then [order[0]] else []) + InOrder(m, order[1..])
  }

  function Entries(m: map<string, string>, ks: seq<string>): (r: seq<string>)
    requires forall i :: 0 <= i < |ks| ==> ks[i] in m
    ensures |r| == |ks|
    ensures forall i :: 0 <= i < |ks| ==> r[i] == Entry(ks[i], m[ks[i]])
  {
    if ks == [] then [] else [Entry(ks[0], m[ks[0]])] + Entries(m, ks[1..])
  }

  /**
   * handle_list_bookmarks: one `'key: url` line per entry in the map's
   * iteration order, or a fixed text for an empty map.
   */
  function Listing(m: map<string, string>, order: seq<string>): (r: string)
    ensures m == map[] ==> r == NoBookmarks
  {
    if m == map[] then NoBookmarks else Join(Entries(m, InOrder(m, order)), '\n')
  }

  /** An order that enumerates the map keeps all of it. */
  lemma {:induction false} InOrderAll(m: map<string, string>, order: seq<string>)
    requires forall i :: 0 <= i < |order| ==> order[i] in m
    ensures InOrder(m, order) == order
  {
    if order != [] {
      InOrderAll(m, order[1..]);
    }
  }

  /** Pieces free of the separator: entry lines whose keys and URLs hold no line feed. */
  lemma EntriesNoNewline(m: map<string, string>, ks: seq<string>)
    requires forall i :: 0 <= i < |ks| ==> ks[i] in m
    requires forall k :: k in m ==> '\n' !in k && '\n' !in m[k]
    ensures forall i :: 0 <= i < |Entries(m, ks)| ==> '\n' !in Entries(m, ks)[i]
  {
    forall i | 0 <= i < |ks| ensures '\n' !in Entries(m, ks)[i] {
      var e := Entries(m, ks)[i];
      assert e == "'" + ks[i] + ": " + m[ks[i]];
    }
  }

  /**
   * For a non-empty map whose keys and URLs hold no line feed, listed in an
   * iteration order, the listing's lines are exactly one entry per key, in
   * that order, and there are as many as the map has entries.
   */
  lemma ListingLines(m: map<string, string>, order: seq<string>)
    requires m != map[] && Enumerates(order, m.Keys)
    requires forall k :: k in m ==> '\n' !in k && '\n' !in m[k]
    ensures Split(Listing(m, order), '\n') == Entries(m, order)
    ensures |Entries(m, order)| == |m|
    ensures forall k :: k in m ==> Entry(k, m[k]) in Entries(m, order)
  {
    InOrderAll(m, order);
    EntriesNoNewline(m, order);
    var k :| k in m;
    assert order != [];
    SplitJoin(Entries(m, order), '\n');
    EnumerationSize(order, m.Keys);
    EntriesCover(m, order);
  }

  lemma EntriesCover(m: map<string, string>, order: seq<string>)
    requires Enumerates(order, m.Keys)
    ensures forall k :: k in m ==> Entry(k, m[k]) in Entries(m, order)
  {
    var es := Entries(m, order);
    forall k | k in m ensures Entry(k, m[k]) in es {
      var i :| 0 <= i < |order| && order[i] == k;
      assert es[i] == Entry(k, m[k]);
    }
  }
}
