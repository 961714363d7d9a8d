/**
 * The in-memory stand-in for the `events` collection: an append-only
 * sequence of documents, `insert_one`, and the dashboard's query
 * `find().sort("timestamp", -1).limit(n)`.
 */
module EventStore {
  import opened Wrappers

  /** The string-valued fields of a stored document. */
  type Fields = map<string, string>

  /** A stored document with the identifier the store gave it on insert. */
  datatype Document = Document(id: nat, fields: Fields)

  // ---------------------------------------------------------------------------
  // The order of `sort("timestamp", -1)`

  /** Code-point order on strings, the order the store compares string values in. */
  predicate StringLe(a: string, b: string)
    decreases |a|
  {
    a == "" || (b != "" && (a[0] < b[0] || (a[0] == b[0] && StringLe(a[1..], b[1..]))))
  }

  lemma {:induction false} StringLeTotal(a: string, b: string)
    ensures StringLe(a, b) || StringLe(b, a)
    decreases |a|
  {
    if a != "" && b != "" && a[0] == b[0] {
      StringLeTotal(a[1..], b[1..]);
    }
  }

  lemma {:induction false} StringLeTransitive(a: string, b: string, c: string)
    requires StringLe(a, b) && StringLe(b, c)
    ensures StringLe(a, c)
    decreases |a|
  {
    if a != "" && a[0] == b[0] && b[0] == c[0] {
      StringLeTransitive(a[1..], b[1..], c[1..]);
    }
  }

  /** The sort key: a document without a timestamp sorts below every string. */
  function SortKey(d: Document): Option<string> {
    if "timestamp" in d.fields then Some(d.fields["timestamp"]) else None
  }

  predicate KeyLe(a: Option<string>, b: Option<string>) {
    a.None? || (b.Some? && StringLe(a.value, b.value))
  }

  lemma KeyLeTotal(a: Option<string>, b: Option<string>)
    ensures KeyLe(a, b) || KeyLe(b, a)
  {
    if a.Some? && b.Some? {
      StringLeTotal(a.value, b.value);
    }
  }

  lemma KeyLeTransitive(a: Option<string>, b: Option<string>, c: Option<string>)
    requires KeyLe(a, b) && KeyLe(b, c)
    ensures KeyLe(a, c)
  {
    if a.Some? {
      StringLeTransitive(a.value, b.value, c.value);
    }
  }

  /** Newest first: no document has a larger timestamp than one before it. */
  predicate NewestFirst(s: seq<Document>) {
    forall i, j :: 0 <= i < j < |s| ==> KeyLe(SortKey(s[j]), SortKey(s[i]))
  }

  function InsertNewestFirst(d: Document, s: seq<Document>): (r: seq<Document>)
    requires NewestFirst(s)
    ensures NewestFirst(r)
    ensures multiset(r) == multiset(s) + multiset{d}
  {
    if s == [] then
      [d]
    else if KeyLe(SortKey(d), SortKey(s[0])) then
      var rest := InsertNewestFirst(d, s[1..]);
      assert s == [s[0]] + s[1..];
      forall x | x in rest
        ensures KeyLe(SortKey(x), SortKey(s[0]))
      {
        assert x in multiset(rest);
      }
      var r := [s[0]] + rest;
      assert forall j :: 0 < j < |r| ==> r[j] in rest;
      r
    else
      KeyLeTotal(SortKey(d), SortKey(s[0]));
      forall j | 0 <= j < |s|
        ensures KeyLe(SortKey(s[j]), SortKey(d))
      {
        if j > 0 {
          KeyLeTransitive(SortKey(s[j]), SortKey(s[0]), SortKey(d));
        }
      }
      [d] + s
  }

  /** The documents of `s`, newest first. */
  function SortNewestFirst(s: seq<Document>): (r: seq<Document>)
    ensures NewestFirst(r)
    ensures multiset(r) == multiset(s)
  {
    if s == [] then
      []
    else
      assert s == [s[0]] + s[1..];
      InsertNewestFirst(s[0], SortNewestFirst(s[1..]))
  }

  /** A prefix of a newest-first sequence holds its newest documents. */
  lemma NewestPrefix(s: seq<Document>, n: nat)
    requires NewestFirst(s) && n <= |s|
    ensures NewestFirst(s[..n])
    ensures multiset(s[..n]) <= multiset(s)
    ensures forall d, e :: d in multiset(s) - multiset(s[..n]) && e in s[..n] ==> KeyLe(SortKey(d), SortKey(e))
  {
    var top, rest := s[..n], s[n..];
    assert s == top + rest;
    assert multiset(s) - multiset(top) == multiset(rest);
    forall d, e | d in multiset(s) - multiset(top) && e in top
      ensures KeyLe(SortKey(d), SortKey(e))
    {
      assert d in rest;
      var j :| 0 <= j < |rest| && rest[j] == d;
      var i :| 0 <= i < n && top[i] == e;
      assert s[n + j] == d && s[i] == e;
    }
  }

  // ---------------------------------------------------------------------------
  // The collection

  class Store {
    var docs: seq<Document>

    /** Every document carries the identifier of its insertion. */
    ghost predicate Valid()
      reads this
    {
      forall i :: 0 <= i < |docs| ==> docs[i].id == i
    }

    constructor ()
      ensures Valid() && docs == []
    {
      docs := [];
    }

    /**
     * `db.events.insert_one(fields)`. When `fails`, the store raises before
     * writing anything; otherwise the document is appended with a new identifier.
     */
    method InsertOne(fields: Fields, fails: bool) returns (id: Option<nat>)
      requires Valid()
      modifies this
      ensures Valid()
      ensures fails ==> id == None && docs == old(docs)
      ensures !fails ==> id == Some(|old(docs)|) && docs == old(docs) + [Document(|old(docs)|, fields)]
    {
      if fails {
        id := None;
      } else {
        id := Some(|docs|);
        docs := docs + [Document(|docs|, fields)];
      }
    }

    /**
     * `find().sort("timestamp", -1).limit(limit)`: at most `limit` documents
     * (all of them when `limit` is 0), newest first, and no document left out
     * is newer than one returned.
     */
    function Latest(limit: nat): (r: seq<Document>)
      reads this
      ensures |r| == if limit == 0 || |docs| < limit then |docs| else limit
      ensures NewestFirst(r)
      ensures multiset(r) <= multiset(docs)
      ensures forall d, e :: d in multiset(docs) - multiset(r) && e in r ==> KeyLe(SortKey(d), SortKey(e))
    {
      var sorted := SortNewestFirst(docs);
      var n := if limit == 0 || |docs| < limit then |docs| else limit;
      NewestPrefix(sorted, n);
      sorted[..n]
    }
  }
}
