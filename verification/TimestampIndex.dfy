/** The inverted timestamp index of the database, against a scan of the frames. */
module TimestampIndex {
  import opened Wrappers

  datatype Row = Row(t: int, values: map<string, real>)

  type Frame = seq<Row>

  /** A frame is stored per timeframe and asset. */
  datatype Key = Key(timeframe: string, asset: string)

  /** First and last row, both included. */
  datatype Range = Range(first: nat, last: nat)

  datatype Item = Item(key: Key, indexer: map<int, Range>)

  datatype Entry = Entry(key: Key, range: Range)

  /** One call of the data handler. */
  datatype Visit = Visit(key: Key, rows: Frame)

  predicate InOrder(f: Frame) { forall i, j :: 0 <= i < j < |f| ==> f[i].t <= f[j].t }

  /** What a scan of the frame finds. */
  function RowsAt(f: Frame, t: int): Frame {
    if f == [] then []
    else RowsAt(f[..|f| - 1], t) + (if f[|f| - 1].t == t then [f[|f| - 1]] else [])
  }

  // ------------------------------------------------------------------ one frame's ranges

  /** Exactly the times of the frame, each with its first and last row. */
  ghost predicate IsMapping(f: Frame, m: map<int, Range>) {
    && (forall i :: 0 <= i < |f| ==> f[i].t in m && m[f[i].t].first <= i <= m[f[i].t].last)
    && (forall t :: t in m ==> m[t].first <= m[t].last < |f| && f[m[t].first].t == t == f[m[t].last].t)
  }

  method GetTimestampIndexMapping(f: Frame) returns (m: map<int, Range>)
    ensures IsMapping(f, m)
  {
    m := map[];
    assert IsMapping(f[..0], m);
    hide IsMapping;
    for i := 0 to |f|
      invariant IsMapping(f[..i], m)
    {
      var t := f[i].t;
      MappingGrows(f, i, m);
      if t !in m {
        m := m[t := Range(i, i)];
      } else {
        m := m[t := m[t].(last := i)];
      }
    }
    assert f[..|f|] == f;
  }

  lemma MappingGrows(f: Frame, i: nat, m: map<int, Range>)
    requires i < |f| && IsMapping(f[..i], m)
    ensures IsMapping(f[..i + 1], m[f[i].t := if f[i].t in m then m[f[i].t].(last := i) else Range(i, i)])
  {
  }

  lemma {:induction false} RowsAtAppend(a: Frame, b: Frame, t: int)
    ensures RowsAt(a + b, t) == RowsAt(a, t) + RowsAt(b, t)
  {
    if b == [] {
      assert a + b == a;
    } else {
      assert (a + b)[..|a + b| - 1] == a + b[..|b| - 1];
      RowsAtAppend(a, b[..|b| - 1], t);
    }
  }

  lemma {:induction false} RowsAtNone(f: Frame, t: int)
    requires forall r :: r in f ==> r.t != t
    ensures RowsAt(f, t) == []
  {
    if f != [] { RowsAtNone(f[..|f| - 1], t); }
  }

  lemma {:induction false} RowsAtAll(f: Frame, t: int)
    requires forall r :: r in f ==> r.t == t
    ensures RowsAt(f, t) == f
  {
    if f != [] { RowsAtAll(f[..|f| - 1], t); }
  }

  /** Only the middle part has rows at t. */
  lemma ScanMiddle(f: Frame, lo: nat, hi: nat, t: int)
    requires lo <= hi <= |f|
    requires forall i :: 0 <= i < |f| && f[i].t == t ==> lo <= i < hi
    ensures RowsAt(f, t) == RowsAt(f[lo..hi], t)
  {
    hide RowsAt;
    var a, b, c := f[..lo], f[lo..hi], f[hi..];
    assert f == (a + b) + c;
    RowsAtAppend(a + b, c, t);
    RowsAtAppend(a, b, t);
    RowsAtNone(a, t);
    RowsAtNone(c, t);
  }

  /** In a sorted frame the range of a time holds exactly the rows a scan finds. */
  lemma RangeIsScan(f: Frame, m: map<int, Range>, t: int)
    requires InOrder(f) && IsMapping(f, m) && t in m
    ensures f[m[t].first..m[t].last + 1] == RowsAt(f, t) && RowsAt(f, t) != []
  {
    RangeIsScanIff(f, m, t);
  }

  lemma NoRangeNoRows(f: Frame, m: map<int, Range>, t: int)
    requires IsMapping(f, m) && t !in m
    ensures RowsAt(f, t) == []
  {
    RowsAtNone(f, t);
  }

  /** In a sorted frame every row lies in exactly one range. */
  lemma RangesPartition(f: Frame, m: map<int, Range>, i: nat, t: int)
    requires InOrder(f) && IsMapping(f, m) && i < |f| && t in m
    ensures m[t].first <= i <= m[t].last <==> t == f[i].t
  {
  }

  function Length(r: Range): int { r.last - r.first + 1 }

  ghost function TotalLength(m: map<int, Range>): int
    decreases |m|
  {
    if m.Items == {} then 0
    else
      var pair :| pair in m.Items;
      Smaller(m, pair.0);
      Length(m[pair.0]) + TotalLength(m - {pair.0})
  }

  lemma Smaller(m: map<int, Range>, t: int)
    requires t in m
    ensures |m - {t}| < |m|
  {
    assert (m - {t}).Keys == m.Keys - {t};
  }

  /** The sum does not depend on the order. */
  lemma {:induction false} TotalWithout(m: map<int, Range>, t: int)
    requires t in m
    ensures TotalLength(m) == Length(m[t]) + TotalLength(m - {t})
    decreases |m|
  {
    assert (t, m[t]) in m.Items;
    var pair :| pair in m.Items && TotalLength(m) == Length(m[pair.0]) + TotalLength(m - {pair.0});
    var x := pair.0;
    if x != t {
      Smaller(m, x);
      Smaller(m, t);
      TotalWithout(m - {x}, t);
      TotalWithout(m - {t}, x);
      assert (m - {x}) - {t} == (m - {t}) - {x};
    }
  }

  lemma TotalWith(m: map<int, Range>, t: int, r: Range)
    requires t !in m
    ensures TotalLength(m[t := r]) == Length(r) + TotalLength(m)
  {
    TotalWithout(m[t := r], t);
    assert m[t := r] - {t} == m;
  }

  /** The mapping without the last row. */
  function Shortened(m: map<int, Range>, t: int, n: nat): map<int, Range>
    requires t in m
  {
    if m[t].first == n then m - {t} else (m - {t})[t := Range(m[t].first, if n > 0 then n - 1 else 0)]
  }

  lemma LastRow(f: Frame, m: map<int, Range>)
    requires f != [] && InOrder(f) && IsMapping(f, m)
    ensures var n, t := |f| - 1, f[|f| - 1].t;
            t in m && m[t].last == n && m[t].first <= n && (m[t].first < n ==> f[n - 1].t == t)
    ensures forall x :: x in m && x != f[|f| - 1].t ==> m[x].last < |f| - 1
  {
    var n, t := |f| - 1, f[|f| - 1].t;
    forall x | x in m && x != t ensures m[x].last < n { assert f[m[x].last].t == x; }
    if m[t].first < n { assert f[m[t].first].t == t && f[m[t].first].t <= f[n - 1].t <= f[n].t; }
  }

  lemma ShortenedMaps(f: Frame, m: map<int, Range>)
    requires f != [] && InOrder(f) && IsMapping(f, m)
    ensures f[|f| - 1].t in m && IsMapping(f[..|f| - 1], Shortened(m, f[|f| - 1].t, |f| - 1))
  {
    hide InOrder;
    LastRow(f, m);
    var n, t := |f| - 1, f[|f| - 1].t;
    var g, r := f[..n], Shortened(m, t, n);
    forall i | 0 <= i < n ensures g[i].t in r && r[g[i].t].first <= i <= r[g[i].t].last {
      assert f[i].t in m && m[f[i].t].first <= i <= m[f[i].t].last;
    }
    forall x | x in r ensures r[x].first <= r[x].last < n && g[r[x].first].t == x == g[r[x].last].t {
      assert x in m && f[m[x].first].t == x == f[m[x].last].t;
    }
  }

  lemma ShortenedLength(m: map<int, Range>, t: int, n: nat)
    requires t in m && m[t].first <= n == m[t].last
    ensures TotalLength(m) == TotalLength(Shortened(m, t, n)) + 1
  {
    TotalWithout(m, t);
    if m[t].first < n { TotalWith(m - {t}, t, Range(m[t].first, n - 1)); }
  }

  /** The lengths of a sorted frame's ranges add up to its rows. */
  lemma {:induction false} LengthsAddUp(f: Frame, m: map<int, Range>)
    requires InOrder(f) && IsMapping(f, m)
    ensures TotalLength(m) == |f|
  {
    if f == [] {
      NoTimes(f, m);
    } else {
      LastRow(f, m);
      ShortenedMaps(f, m);
      hide IsMapping, TotalLength, Shortened;
      LengthsAddUp(f[..|f| - 1], Shortened(m, f[|f| - 1].t, |f| - 1));
      ShortenedLength(m, f[|f| - 1].t, |f| - 1);
    }
  }

  lemma NoTimes(f: Frame, m: map<int, Range>)
    requires f == [] && IsMapping(f, m)
    ensures m.Keys == {} && m.Items == {}
  {
    forall t | t in m ensures m[t].first <= m[t].last < |f| { }
  }

  ghost predicate Contiguous(f: Frame, r: Range, t: int) {
    r.first <= r.last < |f| && forall i :: r.first <= i <= r.last ==> f[i].t == t
  }

  lemma SliceTimes(f: Frame, r: Range, t: int)
    requires r.first <= r.last < |f|
    ensures (forall x :: x in f[r.first..r.last + 1] ==> x.t == t) <==> Contiguous(f, r, t)
  {
    var b := f[r.first..r.last + 1];
    if Contiguous(f, r, t) {
      forall x | x in b ensures x.t == t {
        var j :| 0 <= j < |b| && b[j] == x;
        assert b[j] == f[r.first + j];
      }
    } else {
      var i :| r.first <= i <= r.last && f[i].t != t;
      assert b[i - r.first] == f[i] && f[i] in b;
    }
  }

  lemma MappingBounds(f: Frame, m: map<int, Range>, t: int)
    requires IsMapping(f, m) && t in m
    ensures m[t].first <= m[t].last < |f|
    ensures forall i :: 0 <= i < |f| && f[i].t == t ==> m[t].first <= i < m[t].last + 1
  {
  }

  /** In any frame: the range is the scan exactly when the time's rows are contiguous. */
  lemma RangeIsScanIff(f: Frame, m: map<int, Range>, t: int)
    requires IsMapping(f, m) && t in m
    ensures f[m[t].first..m[t].last + 1] == RowsAt(f, t) <==> Contiguous(f, m[t], t)
  {
    hide RowsAt, Contiguous, IsMapping;
    MappingBounds(f, m, t);
    var r := m[t];
    var b := f[r.first..r.last + 1];
    ScanMiddle(f, r.first, r.last + 1, t);
    SliceTimes(f, r, t);
    RowsAtOnly(b, t);
    if forall x :: x in b ==> x.t == t { RowsAtAll(b, t); }
  }

  lemma {:induction false} RowsAtOnly(f: Frame, t: int)
    ensures forall r :: r in RowsAt(f, t) ==> r.t == t
  {
    if f != [] { RowsAtOnly(f[..|f| - 1], t); }
  }

  // -------------------------------------------------------------------------- the index

  function At(index: map<int, seq<Entry>>, t: int): seq<Entry> { if t in index then index[t] else [] }

  function EntryAt(item: Item, t: int): seq<Entry> {
    if t in item.indexer then [Entry(item.key, item.indexer[t])] else []
  }

  /** The pair of this time has not been visited yet. */
  predicate Waiting(item: Item, pairs: set<(int, Range)>, t: int) {
    t in item.indexer && (t, item.indexer[t]) in pairs
  }

  /** The entries the items contribute at a time, in item order. */
  function EntriesAt(items: seq<Item>, t: int): seq<Entry> {
    if items == [] then [] else EntriesAt(items[..|items| - 1], t) + EntryAt(items[|items| - 1], t)
  }

  lemma EntriesSnoc(items: seq<Item>, item: Item, t: int)
    ensures EntriesAt(items + [item], t) == EntriesAt(items, t) + EntryAt(item, t)
  {
    assert (items + [item])[..|items|] == items;
  }

  lemma NoEntries(items: seq<Item>)
    ensures forall t :: EntriesAt(items[..0], t) == []
  {
  }

  /** One item per nonempty frame. */
  ghost predicate Indexes(items: seq<Item>, data: map<Key, Frame>, keys: set<Key>) {
    && (forall i :: 0 <= i < |items| ==>
          items[i].key in keys && items[i].key in data && data[items[i].key] != []
          && IsMapping(data[items[i].key], items[i].indexer))
    && (forall i, j :: 0 <= i < j < |items| ==> items[i].key != items[j].key)
    && (forall key :: key in keys && key in data && data[key] != [] ==>
          exists i :: 0 <= i < |items| && items[i].key == key)
  }

  lemma IndexesOneMore(items: seq<Item>, data: map<Key, Frame>, keys: set<Key>, key: Key, m: map<int, Range>)
    requires Indexes(items, data, keys) && key !in keys && key in data
    requires data[key] != [] ==> IsMapping(data[key], m)
    ensures data[key] != [] ==> Indexes(items + [Item(key, m)], data, keys + {key})
    ensures data[key] == [] ==> Indexes(items, data, keys + {key})
  {
    if data[key] != [] {
      var items' := items + [Item(key, m)];
      assert items'[|items|].key == key;
      forall k | k in keys && k in data && data[k] != []
        ensures exists i :: 0 <= i < |items'| && items'[i].key == k
      {
        var i :| 0 <= i < |items| && items[i].key == k;
        assert items'[i].key == k;
      }
    }
  }

  class DatabaseImpl {
    var transformedData: map<Key, Frame>
    var indexer: seq<Item>
    var timestampIndex: map<int, seq<Entry>>

    constructor ()
      ensures transformedData == map[] && indexer == [] && timestampIndex == map[]
    {
      transformedData, indexer, timestampIndex := map[], [], map[];
    }

    /** Frames are indexed in any order; empty ones are skipped. */
    method IndexFrames() returns (ghost added: seq<Item>)
      modifies this`indexer
      ensures indexer == old(indexer) + added && Indexes(added, transformedData, transformedData.Keys)
    {
      added := [];
      var keys := transformedData.Keys;
      while keys != {}
        invariant keys <= transformedData.Keys
        invariant indexer == old(indexer) + added && Indexes(added, transformedData, transformedData.Keys - keys)
      {
        var key :| key in keys;
        ghost var seen := transformedData.Keys - keys;
        keys := keys - {key};
        assert transformedData.Keys - keys == seen + {key};
        if transformedData[key] != [] {
          var m := GetTimestampIndexMapping(transformedData[key]);
          IndexesOneMore(added, transformedData, seen, key, m);
          indexer := indexer + [Item(key, m)];
          added := added + [Item(key, m)];
        } else {
          IndexesOneMore(added, transformedData, seen, key, map[]);
        }
      }
      assert transformedData.Keys - keys == transformedData.Keys;
    }

    method IndexItem(item: Item)
      modifies this`timestampIndex
      ensures forall t :: At(timestampIndex, t) == At(old(timestampIndex), t) + EntryAt(item, t)
    {
      var pairs := item.indexer.Items;
      while pairs != {}
        invariant pairs <= item.indexer.Items
        invariant forall t :: At(timestampIndex, t)
                              == At(old(timestampIndex), t) + (if Waiting(item, pairs, t) then [] else EntryAt(item, t))
      {
        var pair :| pair in pairs;
        timestampIndex := timestampIndex[pair.0 := At(timestampIndex, pair.0) + [Entry(item.key, pair.1)]];
        pairs := pairs - {pair};
      }
    }

    /** Every item of the indexer is entered, including those of earlier runs. */
    method InvertIndexer()
      modifies this`timestampIndex
      ensures forall t :: At(timestampIndex, t) == At(old(timestampIndex), t) + EntriesAt(indexer, t)
    {
      hide EntriesAt, EntryAt, At;
      NoEntries(indexer);
      for i := 0 to |indexer|
        invariant forall t :: At(timestampIndex, t) == At(old(timestampIndex), t) + EntriesAt(indexer[..i], t)
      {
        assert indexer[..i + 1] == indexer[..i] + [indexer[i]];
        forall t ensures EntriesAt(indexer[..i + 1], t) == EntriesAt(indexer[..i], t) + EntryAt(indexer[i], t) {
          EntriesSnoc(indexer[..i], indexer[i], t);
        }
        IndexItem(indexer[i]);
      }
      assert indexer[..|indexer|] == indexer;
    }

    /** The end of a pipeline run.  Neither the indexer nor the index is emptied first. */
    method CompletePipeline(data: map<Key, Frame>) returns (ghost added: seq<Item>)
      modifies this
      ensures transformedData == data && indexer == old(indexer) + added && Indexes(added, data, data.Keys)
      ensures forall t :: At(timestampIndex, t) == At(old(timestampIndex), t) + EntriesAt(indexer, t)
    {
      transformedData := data;
      added := IndexFrames();
      InvertIndexer();
    }

    /** One handler call per entry; a missing frame or a range beyond its end is an error. */
    method HandleData(t: int) returns (r: Result<seq<Visit>>)
      ensures r.Ok? <==> forall e :: e in At(timestampIndex, t) ==> Readable(transformedData, e)
      ensures r.Ok? ==> r.value == VisitsOf(transformedData, At(timestampIndex, t))
    {
      if t !in timestampIndex { return Ok([]); }
      var entries := timestampIndex[t];
      var visits := [];
      for i := 0 to |entries|
        invariant forall k :: 0 <= k < i ==> Readable(transformedData, entries[k])
        invariant visits == VisitsOf(transformedData, entries[..i])
      {
        var e := entries[i];
        assert entries[..i + 1] == entries[..i] + [e] && e in entries;
        if !Readable(transformedData, e) { return Err; }
        visits := visits + [Visit(e.key, transformedData[e.key][e.range.first..e.range.last + 1])];
      }
      assert entries[..|entries|] == entries;
      r := Ok(visits);
    }
  }

  predicate Readable(data: map<Key, Frame>, e: Entry) {
    e.key in data && e.range.first <= e.range.last < |data[e.key]|
  }

  function VisitOf(data: map<Key, Frame>, e: Entry): Visit {
    Visit(e.key, if Readable(data, e) then data[e.key][e.range.first..e.range.last + 1] else [])
  }

  function VisitsOf(data: map<Key, Frame>, entries: seq<Entry>): seq<Visit> {
    seq(|entries|, i requires 0 <= i < |entries| => VisitOf(data, entries[i]))
  }

  // ------------------------------------------------------------- the index and a scan

  /** How often the visits contain a key. */
  function VisitCount(visits: seq<Visit>, key: Key): nat {
    if visits == [] then 0
    else VisitCount(visits[..|visits| - 1], key) + (if visits[|visits| - 1].key == key then 1 else 0)
  }

  ghost predicate AllInOrder(data: map<Key, Frame>) { forall key :: key in data ==> InOrder(data[key]) }

  lemma VisitsOfAppend(data: map<Key, Frame>, a: seq<Entry>, b: seq<Entry>)
    ensures VisitsOf(data, a + b) == VisitsOf(data, a) + VisitsOf(data, b)
  {
  }

  lemma {:induction false} VisitCountAppend(a: seq<Visit>, b: seq<Visit>, key: Key)
    ensures VisitCount(a + b, key) == VisitCount(a, key) + VisitCount(b, key)
  {
    if b == [] {
      assert a + b == a;
    } else {
      assert (a + b)[..|a + b| - 1] == a + b[..|b| - 1];
      VisitCountAppend(a, b[..|b| - 1], key);
    }
  }

  /** The items known so far: keys distinct, each a mapping of its sorted frame. */
  ghost predicate Mapped(items: seq<Item>, data: map<Key, Frame>) {
    && (forall i :: 0 <= i < |items| ==> items[i].key in data && IsMapping(data[items[i].key], items[i].indexer))
    && (forall i, j :: 0 <= i < j < |items| ==> items[i].key != items[j].key)
  }

  ghost predicate HasItem(items: seq<Item>, key: Key) { exists i :: 0 <= i < |items| && items[i].key == key }

  /** The visits show only rows at t of their frames; each frame of an item that has some, once. */
  ghost predicate Scans(items: seq<Item>, entries: seq<Entry>, data: map<Key, Frame>, t: int) {
    && (forall e :: e in entries ==> Readable(data, e) && VisitOf(data, e).rows == RowsAt(data[e.key], t) != [])
    && (forall key :: key in data ==>
          VisitCount(VisitsOf(data, entries), key) ==
            if HasItem(items, key) && RowsAt(data[key], t) != [] then 1 else 0)
  }

  lemma {:induction false} VisitsAreScan(items: seq<Item>, data: map<Key, Frame>, t: int)
    requires AllInOrder(data) && Mapped(items, data)
    ensures Scans(items, EntriesAt(items, t), data, t)
  {
    hide IsMapping, RowsAt, VisitsOf, EntryAt;
    if items == [] {
      NoVisits(data);
    } else {
      var n := |items| - 1;
      VisitsAreScan(items[..n], data, t);
      LastItemVisit(items[..n], EntriesAt(items[..n], t), items[n], data, t);
      assert items == items[..n] + [items[n]];
    }
  }

  lemma NoVisits(data: map<Key, Frame>)
    ensures VisitsOf(data, []) == []
  {
  }

  lemma HasItemSnoc(items: seq<Item>, item: Item, key: Key)
    ensures HasItem(items + [item], key) <==> HasItem(items, key) || key == item.key
  {
    var all := items + [item];
    assert all[|items|] == item;
    if HasItem(items, key) {
      var i :| 0 <= i < |items| && items[i].key == key;
      assert all[i].key == key;
    }
  }

  lemma OneVisit(item: Item, data: map<Key, Frame>, t: int)
    requires AllInOrder(data) && item.key in data && IsMapping(data[item.key], item.indexer)
    ensures t in item.indexer <==> RowsAt(data[item.key], t) != []
    ensures t in item.indexer ==>
              var e := Entry(item.key, item.indexer[t]);
              Readable(data, e) && VisitOf(data, e).rows == RowsAt(data[item.key], t)
  {
    if t in item.indexer { RangeIsScan(data[item.key], item.indexer, t); }
    else { NoRangeNoRows(data[item.key], item.indexer, t); }
  }

  lemma LastItemVisit(items: seq<Item>, entries: seq<Entry>, item: Item, data: map<Key, Frame>, t: int)
    requires AllInOrder(data) && item.key in data && IsMapping(data[item.key], item.indexer)
    requires Scans(items, entries, data, t) && !HasItem(items, item.key)
    ensures Scans(items + [item], entries + EntryAt(item, t), data, t)
  {
    hide IsMapping, RowsAt, VisitOf, HasItem, AllInOrder;
    OneVisit(item, data, t);
    var last := EntryAt(item, t);
    VisitsOfAppend(data, entries, last);
    forall key | key in data
      ensures VisitCount(VisitsOf(data, entries + last), key)
              == if HasItem(items + [item], key) && RowsAt(data[key], t) != [] then 1 else 0
    {
      HasItemSnoc(items, item, key);
      VisitCountAppend(VisitsOf(data, entries), VisitsOf(data, last), key);
      CountOfOne(data, item, t, key);
    }
  }

  lemma CountOfOne(data: map<Key, Frame>, item: Item, t: int, key: Key)
    ensures VisitCount(VisitsOf(data, EntryAt(item, t)), key) == if t in item.indexer && key == item.key then 1 else 0
  {
    if t in item.indexer {
      var vs := VisitsOf(data, EntryAt(item, t));
      assert vs == [VisitOf(data, Entry(item.key, item.indexer[t]))] && vs[..0] == [];
    }
  }

  lemma IndexesAreMapped(items: seq<Item>, data: map<Key, Frame>, t: int)
    requires Indexes(items, data, data.Keys)
    ensures Mapped(items, data) && forall key :: key in data && RowsAt(data[key], t) != [] ==> HasItem(items, key)
  {
    forall key | key in data && RowsAt(data[key], t) != [] ensures HasItem(items, key) {
      assert data[key] != [];
    }
  }

  lemma VisitsAreOf(data: map<Key, Frame>, entries: seq<Entry>)
    ensures forall v :: v in VisitsOf(data, entries) ==> exists e :: e in entries && v == VisitOf(data, e)
  {
    forall v | v in VisitsOf(data, entries) ensures exists e :: e in entries && v == VisitOf(data, e) {
      var i :| 0 <= i < |entries| && VisitsOf(data, entries)[i] == v;
      assert entries[i] in entries;
    }
  }

  /** The handler is shown, at this time, exactly what a scan of the frames finds, each frame once. */
  ghost predicate ShowsScan(data: map<Key, Frame>, r: Result<seq<Visit>>, t: int) {
    && r.Ok?
    && (forall v :: v in r.value ==> v.key in data && v.rows == RowsAt(data[v.key], t))
    && (forall key :: key in data ==> VisitCount(r.value, key) == if RowsAt(data[key], t) != [] then 1 else 0)
  }

  lemma {:induction false} EntriesAtAppend(a: seq<Item>, b: seq<Item>, t: int)
    ensures EntriesAt(a + b, t) == EntriesAt(a, t) + EntriesAt(b, t)
  {
    if b == [] {
      assert a + b == a;
    } else {
      assert (a + b)[..|a + b| - 1] == a + b[..|b| - 1];
      EntriesAtAppend(a, b[..|b| - 1], t);
    }
  }

  /** What HandleData returns for these entries. */
  function Handled(data: map<Key, Frame>, entries: seq<Entry>): Result<seq<Visit>> {
    if forall e :: e in entries ==> Readable(data, e) then Ok(VisitsOf(data, entries)) else Err
  }

  /** The items just indexed show the scan. */
  lemma NewItemsScan(data: map<Key, Frame>, added: seq<Item>, t: int)
    requires AllInOrder(data) && Indexes(added, data, data.Keys)
    ensures ShowsScan(data, Handled(data, EntriesAt(added, t)), t)
  {
    hide RowsAt, VisitCount, AllInOrder, Indexes, Mapped, EntriesAt;
    IndexesAreMapped(added, data, t);
    VisitsAreScan(added, data, t);
    VisitsAreOf(data, EntriesAt(added, t));
  }

  lemma {:induction false} VisitCounted(visits: seq<Visit>, i: nat)
    requires i < |visits|
    ensures VisitCount(visits, visits[i].key) >= 1
  {
    if i < |visits| - 1 { VisitCounted(visits[..|visits| - 1], i); }
  }

  /** Any entry left over from before either cannot be read or adds a visit the scan does not have. */
  lemma LeftoversShow(data: map<Key, Frame>, before: seq<Entry>, added: seq<Item>, t: int)
    requires AllInOrder(data) && Indexes(added, data, data.Keys)
    ensures ShowsScan(data, Handled(data, before + EntriesAt(added, t)), t) <==> before == []
  {
    hide RowsAt, VisitCount, AllInOrder, Indexes, EntriesAt, VisitsOf;
    NewItemsScan(data, added, t);
    var new_ := EntriesAt(added, t);
    if before == [] {
      assert before + new_ == new_;
    } else if Handled(data, before + new_).Ok? {
      assert forall e :: e in new_ ==> e in before + new_;
      VisitsOfAppend(data, before, new_);
      FirstVisit(data, before);
      var key := before[0].key;
      assert before[0] in before + new_ && key in data;
      VisitCountAppend(VisitsOf(data, before), VisitsOf(data, new_), key);
    }
  }

  lemma FirstVisit(data: map<Key, Frame>, entries: seq<Entry>)
    requires entries != []
    ensures VisitCount(VisitsOf(data, entries), entries[0].key) >= 1
  {
    VisitCounted(VisitsOf(data, entries), 0);
  }

  /**
   A run over any tables and new frames: the handler is shown the scan at a time exactly when
   neither table held anything for that time.
   */
  method RunAgain(database: DatabaseImpl, data: map<Key, Frame>, t: int) returns (r: Result<seq<Visit>>)
    requires AllInOrder(data)
    modifies database
    ensures ShowsScan(data, r, t) <==>
            At(old(database.timestampIndex), t) == [] && EntriesAt(old(database.indexer), t) == []
  {
    hide AllInOrder, Indexes, ShowsScan, EntriesAt;
    ghost var before, items := At(database.timestampIndex, t), database.indexer;
    ghost var added := database.CompletePipeline(data);
    EntriesAtAppend(items, added, t);
    LeftoversShow(data, before + EntriesAt(items, t), added, t);
    assert before + (EntriesAt(items, t) + EntriesAt(added, t)) == (before + EntriesAt(items, t)) + EntriesAt(added, t);
    r := database.HandleData(t);
  }

  /** One run from empty tables: the handler sees, at every time, exactly what a scan would show it. */
  method RunAndHandle(data: map<Key, Frame>, t: int) returns (visits: seq<Visit>)
    requires AllInOrder(data)
    ensures forall v :: v in visits ==> v.key in data && v.rows == RowsAt(data[v.key], t)
    ensures forall key :: key in data ==> VisitCount(visits, key) == if RowsAt(data[key], t) != [] then 1 else 0
  {
    hide AllInOrder, RowsAt, VisitCount;
    var database := new DatabaseImpl();
    var handled := RunAgain(database, data, t);
    visits := handled.value;
  }

  /** The entries of two runs over the same frames, as the index holds them. */
  lemma RefreshRepeats(data: map<Key, Frame>, t: int, first: seq<Item>, second: seq<Item>, key: Key)
    requires AllInOrder(data) && Indexes(first, data, data.Keys) && Indexes(second, data, data.Keys)
    requires key in data && RowsAt(data[key], t) != []
    ensures var entries := EntriesAt(first, t) + EntriesAt(first + second, t);
            Handled(data, entries).Ok? && VisitCount(Handled(data, entries).value, key) == 3
  {
    hide VisitsOf, VisitCount, EntriesAt, RowsAt, Indexes, AllInOrder, Readable;
    var a, b := EntriesAt(first, t), EntriesAt(second, t);
    EntriesAtAppend(first, second, t);
    VisitsOfAppend(data, a, a + b);
    VisitsOfAppend(data, a, b);
    VisitCountAppend(VisitsOf(data, a), VisitsOf(data, a + b), key);
    VisitCountAppend(VisitsOf(data, a), VisitsOf(data, b), key);
    NewItemsScan(data, first, t);
    NewItemsScan(data, second, t);
  }

  /** A pipeline run and a refresh over unchanged frames: every frame is shown three times. */
  method RunThenRefresh(data: map<Key, Frame>, t: int) returns (r: Result<seq<Visit>>)
    requires AllInOrder(data)
    ensures (exists key :: key in data && RowsAt(data[key], t) != []) ==> r.Ok?
    ensures r.Ok? ==> forall key :: key in data && RowsAt(data[key], t) != [] ==> VisitCount(r.value, key) == 3
  {
    hide AllInOrder, Indexes, RowsAt, VisitCount, EntriesAt, Readable;
    var database := new DatabaseImpl();
    ghost var first := database.CompletePipeline(data);
    assert database.indexer == first;
    ghost var second := database.CompletePipeline(data);
    assert At(database.timestampIndex, t) == EntriesAt(first, t) + EntriesAt(first + second, t);
    forall key | key in data && RowsAt(data[key], t) != []
      ensures var entries := EntriesAt(first, t) + EntriesAt(first + second, t);
              Handled(data, entries).Ok? && VisitCount(Handled(data, entries).value, key) == 3
    {
      RefreshRepeats(data, t, first, second, key);
    }
    r := database.HandleData(t);
  }
}
