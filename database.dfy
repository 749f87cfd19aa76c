/** The in-memory stores of `services/database.py`.  `HotelDB` keeps one
    hotel per id; `RawHotelDB` keeps one hotel per (id, source) pair.  Both
    count their records in `_length`.  A Python dictionary is modelled as a
    map together with its keys in insertion order, since `values()` and
    "the first source" depend on that order. */
module Database {
  import opened Wrappers
  import opened Sequences
  import opened Models

  /** The ids of a list of hotels, in order. */
  function IdsOf(hs: seq<Hotel>): (r: seq<string>)
    ensures |r| == |hs| && forall i :: 0 <= i < |hs| ==> r[i] == hs[i].hotelId
  {
    seq(|hs|, i requires 0 <= i < |hs| => hs[i].hotelId)
  }

  lemma IdsOfSnoc(hs: seq<Hotel>, i: nat)
    requires i < |hs|
    ensures IdsOf(hs[..i + 1]) == IdsOf(hs[..i]) + [hs[i].hotelId]
  {
  }

  /** A Python `destination_id` argument is truthy when given and non-zero. */
  predicate GivenDestination(d: Option<int>) {
    d.Some? && d.value != 0
  }

  /** A duplicate-free list has as many distinct elements as entries. */
  lemma {:induction false} DistinctCard(s: seq<string>)
    requires NoDup(s)
    ensures |set x | x in s| == |s|
    decreases |s|
  {
    if s != [] {
      var n := |s| - 1;
      assert NoDup(s[..n]);
      DistinctCard(s[..n]);
      assert s == s[..n] + [s[n]];
      assert (set x | x in s) == (set x | x in s[..n]) + {s[n]};
    }
  }

  // =====================================================================
  // HotelDB

  /** Each hotel stored under its id, in turn: an id is stored afterwards
      exactly when it was stored before or some hotel carried it, and an id no
      hotel carried keeps its old hotel. */
  function Upserts(m: map<string, Hotel>, hs: seq<Hotel>): (r: map<string, Hotel>)
    ensures forall k :: k in r <==> k in m || k in IdsOf(hs)
    ensures forall k :: k in m && k !in IdsOf(hs) ==> r[k] == m[k]
    decreases |hs|
  {
    if hs == [] then m
    else
      var n := |hs| - 1;
      IdsOfSnoc(hs, n);
      assert hs[..n + 1] == hs;
      Upserts(m, hs[..n])[hs[n].hotelId := hs[n]]
  }

  lemma {:induction false} UpsertsLastWins(m: map<string, Hotel>, hs: seq<Hotel>, i: nat)
    requires i < |hs| && forall j :: i < j < |hs| ==> hs[j].hotelId != hs[i].hotelId
    ensures hs[i].hotelId in Upserts(m, hs) && Upserts(m, hs)[hs[i].hotelId] == hs[i]
    decreases |hs|
  {
    var n := |hs| - 1;
    if i < n {
      assert forall j :: i < j < n ==> hs[..n][j] == hs[j];
      UpsertsLastWins(m, hs[..n], i);
      assert hs[..n][i] == hs[i];
    }
  }

  class HotelDB {
    /** The keys of `data` in insertion order. */
    var ids: seq<string>
    var data: map<string, Hotel>
    /** `_length`. */
    var length: nat

    /** Every id is stored under its own key, the key order lists each key
        once, and `_length` is the number of keys. */
    ghost predicate Valid()
      reads this
    {
      && NoDup(ids)
      && (forall k :: k in data <==> k in ids)
      && (forall k :: k in data ==> data[k].hotelId == k)
      && length == |ids|
    }

    constructor ()
      ensures Valid() && ids == [] && data == map[] && length == 0
    {
      ids, data, length := [], map[], 0;
    }

    /** `length()`: the number of stored hotels. */
    function Length(): (r: nat)
      reads this
      requires Valid()
      ensures r == |data.Keys|
    {
      DistinctCard(ids);
      assert data.Keys == set x | x in ids;
      length
    }

    /** The stored records, in insertion order. */
    function Values(): (r: seq<Hotel>)
      reads this
      requires Valid()
      ensures |r| == |ids| && forall i :: 0 <= i < |r| ==> r[i] == data[ids[i]] && r[i].hotelId == ids[i]
    {
      ValuesIn(ids, data)
    }

    /** `update_one`: a new id is counted and appended to the key order; an
        existing one keeps its place and is overwritten. */
    method UpdateOne(h: Hotel) returns (r: Hotel)
      requires Valid()
      modifies this
      ensures Valid()
      ensures r == h
      ensures data == old(data)[h.hotelId := h]
      ensures ids == if h.hotelId in old(data) then old(ids) else old(ids) + [h.hotelId]
      ensures length == old(length) + (if h.hotelId in old(data) then 0 else 1)
    {
      if h.hotelId !in data {
        length := length + 1;
        ids := ids + [h.hotelId];
      }
      data := data[h.hotelId := h];
      r := h;
    }

    /** `update_many`: `update_one` on each hotel in order. */
    method UpdateMany(hs: seq<Hotel>) returns (r: seq<Hotel>)
      requires Valid()
      modifies this
      ensures Valid()
      ensures r == hs
      ensures data == Upserts(old(data), hs)
      ensures ids == AppendNew(old(ids), IdsOf(hs))
    {
      var i := 0;
      while i < |hs|
        invariant 0 <= i <= |hs|
        invariant Valid()
        invariant data == Upserts(old(data), hs[..i])
        invariant ids == AppendNew(old(ids), IdsOf(hs[..i]))
      {
        assert hs[..i + 1][..i] == hs[..i];
        IdsOfSnoc(hs, i);
        var _ := UpdateOne(hs[i]);
        i := i + 1;
      }
      assert hs[..|hs|] == hs;
      r := hs;
    }

    /** `find_by_id_and_destination`: the stored hotel, if its destination
        matches. */
    function FindByIdAndDestination(id: string, dest: int): (r: Option<Hotel>)
      reads this
      ensures r.Some? <==> id in data && data[id].destinationId == dest
      ensures r.Some? ==> r.value == data[id]
    {
      if id !in data then None
      else if data[id].destinationId != dest then None
      else Some(data[id])
    }

    /** `find`: a given destination restricts the lookup to it; otherwise it
        is a plain lookup. */
    function Find(id: string, dest: Option<int>): (r: Option<Hotel>)
      reads this
      ensures r.Some? <==> id in data && (GivenDestination(dest) ==> data[id].destinationId == dest.value)
      ensures r.Some? ==> r.value == data[id]
    {
      if GivenDestination(dest) then FindByIdAndDestination(id, dest.value)
      else if id in data then Some(data[id])
      else None
    }

    /** `find_all`.  Without both filters it returns every stored hotel in
        key order.  Otherwise it returns, once each, exactly the stored hotels
        whose id and destination are both listed.  (The source walks a `set`
        of ids, whose order is unspecified; this walks the ids in first-seen
        order.) */
    method FindAll(hotelIds: Option<seq<string>>, destIds: Option<seq<int>>) returns (r: seq<Hotel>)
      requires Valid()
      ensures !NonEmpty(hotelIds) || !NonEmpty(destIds) ==> r == Values()
      ensures NonEmpty(hotelIds) && NonEmpty(destIds) ==>
        NoDup(r) && forall h :: h in r <==>
          h.hotelId in hotelIds.value && h.hotelId in data && data[h.hotelId] == h && h.destinationId in destIds.value
    {
      if !NonEmpty(hotelIds) || !NonEmpty(destIds) {
        return Values();
      }
      var qs := Dedup(hotelIds.value);
      DedupFirstSeen(hotelIds.value);
      r := [];
      var j := 0;
      while j < |qs|
        invariant 0 <= j <= |qs|
        invariant NoDup(r)
        invariant forall h :: h in r ==> h.hotelId in qs[..j]
        invariant forall h :: h in r <==>
          exists k :: 0 <= k < j && qs[k] in data && data[qs[k]] == h && h.destinationId in destIds.value
      {
        var hotel := Find(qs[j], None);
        if hotel.Some? && hotel.value.destinationId in destIds.value {
          assert hotel.value.hotelId == qs[j] && qs[j] !in qs[..j];
          r := r + [hotel.value];
        }
        assert forall k :: 0 <= k < j ==> qs[..j + 1][k] == qs[..j][k];
        j := j + 1;
      }
      forall h | h in r ensures h.hotelId in hotelIds.value && h.hotelId in data && data[h.hotelId] == h {
        var k :| 0 <= k < |qs| && qs[k] in data && data[qs[k]] == h && h.destinationId in destIds.value;
        assert qs[k] in qs;
      }
      forall h: Hotel | h.hotelId in hotelIds.value && h.hotelId in data && data[h.hotelId] == h && h.destinationId in destIds.value
        ensures h in r
      {
        assert h.hotelId in qs;
        var k :| 0 <= k < |qs| && qs[k] == h.hotelId;
      }
    }
  }

  // =====================================================================
  // RawHotelDB

  /** The number of (id, source) pairs: the sources of each id, summed over
      the ids. */
  function Pairs(ks: seq<string>, srcs: map<string, seq<string>>): nat
    decreases |ks|
  {
    if ks == [] then 0
    else
      var n := |ks| - 1;
      Pairs(ks[..n], srcs) + (if ks[n] in srcs then |srcs[ks[n]]| else 0)
  }

  /** Changing the sources of a listed id changes the count by the change in
      its number of sources. */
  lemma {:induction false} PairsUpdate(ks: seq<string>, srcs: map<string, seq<string>>, k: string, v: seq<string>)
    requires NoDup(ks) && k in ks && k in srcs
    ensures Pairs(ks, srcs[k := v]) + |srcs[k]| == Pairs(ks, srcs) + |v|
    decreases |ks|
  {
    var n := |ks| - 1;
    if ks[n] == k {
      assert k !in ks[..n];
      PairsUnlisted(ks[..n], srcs, k, v);
    } else {
      assert NoDup(ks[..n]);
      assert k in ks[..n] by {
        var i :| 0 <= i < |ks| && ks[i] == k;
        assert ks[..n][i] == k;
      }
      PairsUpdate(ks[..n], srcs, k, v);
    }
  }

  /** The sources of an unlisted id do not count. */
  lemma {:induction false} PairsUnlisted(ks: seq<string>, srcs: map<string, seq<string>>, k: string, v: seq<string>)
    requires k !in ks
    ensures Pairs(ks, srcs[k := v]) == Pairs(ks, srcs)
    decreases |ks|
  {
    if ks != [] {
      var n := |ks| - 1;
      assert ks[n] in ks;
      assert k !in ks[..n];
      PairsUnlisted(ks[..n], srcs, k, v);
    }
  }

  /** The record filed under its id and then its source. */
  function Put(m: map<string, map<string, Hotel>>, h: Hotel): map<string, map<string, Hotel>> {
    m[h.hotelId := (if h.hotelId in m then m[h.hotelId] else map[])[h.source := h]]
  }

  lemma PutMember(m: map<string, map<string, Hotel>>, h: Hotel, k: string, s: string)
    ensures (k in Put(m, h) && s in Put(m, h)[k]) <==> (k in m && s in m[k]) || (k == h.hotelId && s == h.source)
  {
  }

  /** Each hotel filed under its id and source, in turn: nothing stored
      before is removed, and every hotel's (id, source) pair is stored. */
  function Puts(m: map<string, map<string, Hotel>>, hs: seq<Hotel>): (r: map<string, map<string, Hotel>>)
    ensures forall k :: k in m ==> k in r && m[k].Keys <= r[k].Keys
    ensures forall i :: 0 <= i < |hs| ==> hs[i].hotelId in r && hs[i].source in r[hs[i].hotelId]
    decreases |hs|
  {
    if hs == [] then m
    else
      var n := |hs| - 1;
      Put(Puts(m, hs[..n]), hs[n])
  }

  /** One step of `update_many` on the raw store: filing the next hotel
      extends both the stored data and the id order by that hotel. */
  lemma PutsStep(ids0: seq<string>, data0: map<string, map<string, Hotel>>, hs: seq<Hotel>, i: nat,
                 ids: seq<string>, data: map<string, map<string, Hotel>>)
    requires i < |hs|
    requires data == Puts(data0, hs[..i]) && ids == AppendNew(ids0, IdsOf(hs[..i]))
    requires hs[i].hotelId in data <==> hs[i].hotelId in ids
    ensures Put(data, hs[i]) == Puts(data0, hs[..i + 1])
    ensures (if hs[i].hotelId in data then ids else ids + [hs[i].hotelId]) == AppendNew(ids0, IdsOf(hs[..i + 1]))
  {
    assert hs[..i + 1][..i] == hs[..i];
    IdsOfSnoc(hs, i);
    var xs := IdsOf(hs[..i + 1]);
    assert xs[..|xs| - 1] == IdsOf(hs[..i]);
  }

  /** `update_one`'s change to the source orders: a new id starts its order
      with the hotel's source, a new source of a stored id is appended, and a
      known source leaves the order as it is. */
  function AddSource(srcs: map<string, seq<string>>, h: Hotel): map<string, seq<string>> {
    var k, s := h.hotelId, h.source;
    srcs[k := if k !in srcs then [s] else if s in srcs[k] then srcs[k] else srcs[k] + [s]]
  }

  /** The source orders after `update_one` on each hotel in turn. */
  function SourcesAfter(srcs: map<string, seq<string>>, hs: seq<Hotel>): map<string, seq<string>>
    decreases |hs|
  {
    if hs == [] then srcs
    else
      var n := |hs| - 1;
      AddSource(SourcesAfter(srcs, hs[..n]), hs[n])
  }

  lemma SourcesAfterStep(srcs: map<string, seq<string>>, hs: seq<Hotel>, i: nat)
    requires i < |hs|
    ensures SourcesAfter(srcs, hs[..i + 1]) == AddSource(SourcesAfter(srcs, hs[..i]), hs[i])
  {
    assert hs[..i + 1][..i] == hs[..i];
  }

  /** The source order of `k`, empty when `k` is not stored. */
  function SourceOrder(srcs: map<string, seq<string>>, k: string): seq<string> {
    if k in srcs then srcs[k] else []
  }

  /** The sources of the hotels with id `k`, in order, repeats included. */
  function SourcesOf(hs: seq<Hotel>, k: string): seq<string>
    decreases |hs|
  {
    if hs == [] then []
    else
      var n := |hs| - 1;
      SourcesOf(hs[..n], k) + (if hs[n].hotelId == k then [hs[n].source] else [])
  }

  /** After a run of updates an id has a source order exactly when it had one
      or some hotel carried it, and that order is the old one followed by the
      new sources of the hotels carrying the id, in order of first
      appearance. */
  lemma {:induction false} SourcesAfterSpec(srcs: map<string, seq<string>>, hs: seq<Hotel>, k: string)
    ensures k in SourcesAfter(srcs, hs) <==> k in srcs || k in IdsOf(hs)
    ensures SourceOrder(SourcesAfter(srcs, hs), k) == AppendNew(SourceOrder(srcs, k), SourcesOf(hs, k))
    decreases |hs|
  {
    if hs != [] {
      var n := |hs| - 1;
      var h := hs[n];
      SourcesAfterSpec(srcs, hs[..n], k);
      IdsOfSnoc(hs, n);
      assert hs[..n + 1] == hs;
      var tail := if h.hotelId == k then [h.source] else [];
      AppendNewConcat(SourceOrder(srcs, k), SourcesOf(hs[..n], k), tail);
    }
  }

  /** Updates never change the first source of a stored id, which is the
      source `find` reads. */
  lemma FirstSourceStays(srcs: map<string, seq<string>>, hs: seq<Hotel>, k: string)
    requires k in srcs && srcs[k] != [] && NoDup(srcs[k])
    ensures k in SourcesAfter(srcs, hs) && SourcesAfter(srcs, hs)[k] != [] && SourcesAfter(srcs, hs)[k][0] == srcs[k][0]
  {
    SourcesAfterSpec(srcs, hs, k);
    AppendNewUnion(srcs[k], SourcesOf(hs, k));
    var r := AppendNew(srcs[k], SourcesOf(hs, k));
    assert r[..|srcs[k]|][0] == r[0];
  }

  /** Two suppliers' records of one id: the first-inserted source stays first. */
  lemma SourcesAfterExample(hx: Hotel, hy: Hotel)
    requires hx.hotelId == "a" && hx.source == "x" && hy.hotelId == "a" && hy.source == "y"
    ensures SourcesAfter(map[], [hx, hy]) == map["a" := ["x", "y"]]
  {
    assert [hx, hy][..1] == [hx] && [hx][..0] == [];
    assert SourcesAfter(map[], [hx]) == map["a" := ["x"]];
    var m := map["a" := ["x"]];
    assert SourcesAfter(map[], [hx, hy]) == AddSource(m, hy);
    assert "a" in m && m["a"] == ["x"] && "y" !in m["a"];
    assert m["a"] + ["y"] == ["x", "y"];
    assert AddSource(m, hy) == m["a" := ["x", "y"]];
  }

  /** Some hotel of `hs` carries the pair `(k, s)`. */
  ghost predicate Carried(hs: seq<Hotel>, k: string, s: string) {
    exists i :: 0 <= i < |hs| && hs[i].hotelId == k && hs[i].source == s
  }

  lemma CarriedSnoc(hs: seq<Hotel>, k: string, s: string)
    requires hs != []
    ensures Carried(hs, k, s) <==>
      Carried(hs[..|hs| - 1], k, s) || (hs[|hs| - 1].hotelId == k && hs[|hs| - 1].source == s)
  {
    var n := |hs| - 1;
    if Carried(hs, k, s) {
      var i :| 0 <= i < |hs| && hs[i].hotelId == k && hs[i].source == s;
      if i < n {
        assert hs[..n][i] == hs[i];
      }
    }
    if Carried(hs[..n], k, s) {
      var i :| 0 <= i < n && hs[..n][i].hotelId == k && hs[..n][i].source == s;
      assert hs[i] == hs[..n][i];
    }
  }

  /** After a run of updates a pair is stored iff it was stored before or
      some update carried it. */
  lemma {:induction false} PutsMember(m: map<string, map<string, Hotel>>, hs: seq<Hotel>)
    ensures forall k, s :: (k in Puts(m, hs) && s in Puts(m, hs)[k]) <==> (k in m && s in m[k]) || Carried(hs, k, s)
    decreases |hs|
  {
    if hs != [] {
      var n := |hs| - 1;
      PutsMember(m, hs[..n]);
      forall k, s ensures (k in Puts(m, hs) && s in Puts(m, hs)[k]) <==> (k in m && s in m[k]) || Carried(hs, k, s) {
        PutMember(Puts(m, hs[..n]), hs[n], k, s);
        CarriedSnoc(hs, k, s);
      }
    }
  }

  /** The last update of a pair wins. */
  lemma PutsLast(m: map<string, map<string, Hotel>>, hs: seq<Hotel>)
    ensures forall i :: 0 <= i < |hs| && Last(hs, i) ==>
      var k, s := hs[i].hotelId, hs[i].source;
      k in Puts(m, hs) && s in Puts(m, hs)[k] && Puts(m, hs)[k][s] == hs[i]
  {
    forall i | 0 <= i < |hs| && Last(hs, i)
      ensures var k, s := hs[i].hotelId, hs[i].source; k in Puts(m, hs) && s in Puts(m, hs)[k] && Puts(m, hs)[k][s] == hs[i]
    {
      PutsLastAt(m, hs, i);
    }
  }

  lemma {:induction false} PutsLastAt(m: map<string, map<string, Hotel>>, hs: seq<Hotel>, i: nat)
    requires i < |hs| && Last(hs, i)
    ensures var k, s := hs[i].hotelId, hs[i].source; k in Puts(m, hs) && s in Puts(m, hs)[k] && Puts(m, hs)[k][s] == hs[i]
    decreases |hs|
  {
    var n := |hs| - 1;
    if i < n {
      assert Last(hs[..n], i) by {
        assert forall j :: i < j < n ==> hs[..n][j] == hs[j];
      }
      PutsLastAt(m, hs[..n], i);
      assert hs[..n][i] == hs[i];
      PutKeeps(Puts(m, hs[..n]), hs[n], hs[i].hotelId, hs[i].source);
    }
  }

  /** A stored pair that no record of the run carries keeps its record. */
  lemma {:induction false} PutsUntouched(m: map<string, map<string, Hotel>>, hs: seq<Hotel>, k: string, s: string)
    requires k in m && s in m[k] && !Carried(hs, k, s)
    ensures k in Puts(m, hs) && s in Puts(m, hs)[k] && Puts(m, hs)[k][s] == m[k][s]
    decreases |hs|
  {
    if hs != [] {
      var n := |hs| - 1;
      CarriedSnoc(hs, k, s);
      PutsUntouched(m, hs[..n], k, s);
      PutKeeps(Puts(m, hs[..n]), hs[n], k, s);
    }
  }

  /** Filing a hotel leaves every other pair as it was. */
  lemma PutKeeps(p: map<string, map<string, Hotel>>, h: Hotel, k: string, s: string)
    requires k in p && s in p[k] && (k, s) != (h.hotelId, h.source)
    ensures k in Put(p, h) && s in Put(p, h)[k] && Put(p, h)[k][s] == p[k][s]
  {
  }

  /** No later hotel of `hs` has the same id and source as `hs[i]`. */
  ghost predicate Last(hs: seq<Hotel>, i: int) {
    0 <= i < |hs| && forall j :: i < j < |hs| ==> (hs[j].hotelId, hs[j].source) != (hs[i].hotelId, hs[i].source)
  }

  ghost predicate RawValid(ids: seq<string>, sources: map<string, seq<string>>,
                           data: map<string, map<string, Hotel>>, length: nat) {
    && NoDup(ids)
    && (forall k :: k in data <==> k in ids)
    && (forall k :: k in sources <==> k in data)
    && (forall k :: k in data ==> sources[k] != [] && NoDup(sources[k]))
    && (forall k, s :: k in data ==> (s in data[k] <==> s in sources[k]))
    && (forall k, s :: k in data && s in data[k] ==> data[k][s].hotelId == k && data[k][s].source == s)
    && length == Pairs(ids, sources)
  }

  /** Filing a record under a stored id and a new source. */
  lemma NewSourceValid(ids: seq<string>, sources: map<string, seq<string>>,
                       data: map<string, map<string, Hotel>>, length: nat, h: Hotel)
    requires RawValid(ids, sources, data, length)
    requires h.hotelId in data && h.source !in data[h.hotelId]
    ensures RawValid(ids, sources[h.hotelId := sources[h.hotelId] + [h.source]], Put(data, h), length + 1)
    ensures AddSource(sources, h) == sources[h.hotelId := sources[h.hotelId] + [h.source]]
  {
    var k := h.hotelId;
    NewSourceKeys(ids, sources, data, length, h);
    NewSourceRecords(ids, sources, data, length, h);
    PairsUpdate(ids, sources, k, sources[k] + [h.source]);
  }

  lemma NewSourceKeys(ids: seq<string>, sources: map<string, seq<string>>,
                      data: map<string, map<string, Hotel>>, length: nat, h: Hotel)
    requires RawValid(ids, sources, data, length)
    requires h.hotelId in data && h.source !in data[h.hotelId]
    ensures forall k :: k in Put(data, h) <==> k in ids
    ensures forall k :: k in sources[h.hotelId := sources[h.hotelId] + [h.source]] <==> k in Put(data, h)
  {
  }

  lemma NewSourceRecords(ids: seq<string>, sources: map<string, seq<string>>,
                         data: map<string, map<string, Hotel>>, length: nat, h: Hotel)
    requires RawValid(ids, sources, data, length)
    requires h.hotelId in data && h.source !in data[h.hotelId]
    ensures var srcs, d := sources[h.hotelId := sources[h.hotelId] + [h.source]], Put(data, h);
      && (forall k :: k in d ==> srcs[k] != [] && NoDup(srcs[k]))
      && (forall k, s :: k in d ==> (s in d[k] <==> s in srcs[k]))
      && (forall k, s :: k in d && s in d[k] ==> d[k][s].hotelId == k && d[k][s].source == s)
  {
  }

  /** Replacing the record of a stored pair. */
  lemma OldSourceValid(ids: seq<string>, sources: map<string, seq<string>>,
                       data: map<string, map<string, Hotel>>, length: nat, h: Hotel)
    requires RawValid(ids, sources, data, length)
    requires h.hotelId in data && h.source in data[h.hotelId]
    ensures RawValid(ids, sources, Put(data, h), length)
    ensures AddSource(sources, h) == sources
  {
    assert h.hotelId in sources && h.source in sources[h.hotelId];
  }

  /** Filing a record under a new id. */
  lemma NewIdValid(ids: seq<string>, sources: map<string, seq<string>>,
                   data: map<string, map<string, Hotel>>, length: nat, h: Hotel)
    requires RawValid(ids, sources, data, length)
    requires h.hotelId !in data
    ensures RawValid(ids + [h.hotelId], sources[h.hotelId := [h.source]], Put(data, h), length + 1)
    ensures AddSource(sources, h) == sources[h.hotelId := [h.source]]
  {
    var k := h.hotelId;
    NewIdKeys(ids, sources, data, length, h);
    NewIdRecords(ids, sources, data, length, h);
    PairsNewId(ids, sources, k, [h.source]);
  }

  lemma NewIdKeys(ids: seq<string>, sources: map<string, seq<string>>,
                  data: map<string, map<string, Hotel>>, length: nat, h: Hotel)
    requires RawValid(ids, sources, data, length)
    requires h.hotelId !in data
    ensures NoDup(ids + [h.hotelId])
    ensures forall k :: k in Put(data, h) <==> k in ids + [h.hotelId]
    ensures forall k :: k in sources[h.hotelId := [h.source]] <==> k in Put(data, h)
  {
  }

  lemma NewIdRecords(ids: seq<string>, sources: map<string, seq<string>>,
                     data: map<string, map<string, Hotel>>, length: nat, h: Hotel)
    requires RawValid(ids, sources, data, length)
    requires h.hotelId !in data
    ensures var srcs, d := sources[h.hotelId := [h.source]], Put(data, h);
      && (forall k :: k in d ==> srcs[k] != [] && NoDup(srcs[k]))
      && (forall k, s :: k in d ==> (s in d[k] <==> s in srcs[k]))
      && (forall k, s :: k in d && s in d[k] ==> d[k][s].hotelId == k && d[k][s].source == s)
  {
  }

  /** Listing a new id adds the number of its sources. */
  lemma PairsNewId(ks: seq<string>, srcs: map<string, seq<string>>, k: string, v: seq<string>)
    requires k !in ks
    ensures Pairs(ks + [k], srcs[k := v]) == Pairs(ks, srcs) + |v|
  {
    PairsUnlisted(ks, srcs, k, v);
    assert (ks + [k])[..|ks|] == ks;
  }

  /** The records of a stored id in source order, or nothing. */
  function RecordsOf(id: string, sources: map<string, seq<string>>, data: map<string, map<string, Hotel>>): seq<Hotel> {
    if id in data && id in sources then ValuesIn(sources[id], data[id]) else []
  }

  /** The records of each listed id in turn: ids that are not stored add
      nothing. */
  function Records(qs: seq<string>, sources: map<string, seq<string>>, data: map<string, map<string, Hotel>>): (r: seq<Hotel>)
    ensures (forall i :: 0 <= i < |qs| ==> qs[i] !in data) ==> r == []
    decreases |qs|
  {
    if qs == [] then []
    else
      var n := |qs| - 1;
      assert forall i :: 0 <= i < n ==> qs[..n][i] == qs[i];
      Records(qs[..n], sources, data) + RecordsOf(qs[n], sources, data)
  }

  /** One pass of the `find_all` loop: the next id adds its records, if it
      is stored. */
  lemma RecordsStep(qs: seq<string>, i: nat, sources: map<string, seq<string>>, data: map<string, map<string, Hotel>>)
    requires i < |qs| && (qs[i] in data ==> qs[i] in sources)
    ensures Records(qs[..i + 1], sources, data) ==
      Records(qs[..i], sources, data) + (if qs[i] in data then ValuesIn(sources[qs[i]], data[qs[i]]) else [])
  {
    assert qs[..i + 1][..i] == qs[..i];
  }

  /** The records of one stored id are its records in source order, each
      filed under that id and its source. */
  lemma RecordsOfSpec(id: string, ids: seq<string>, sources: map<string, seq<string>>,
                      data: map<string, map<string, Hotel>>, length: nat)
    requires RawValid(ids, sources, data, length)
    ensures id !in data ==> RecordsOf(id, sources, data) == []
    ensures id in data ==> (|RecordsOf(id, sources, data)| == |sources[id]|
      && forall i :: 0 <= i < |sources[id]| ==>
        RecordsOf(id, sources, data)[i] == data[id][sources[id][i]]
        && RecordsOf(id, sources, data)[i].hotelId == id && RecordsOf(id, sources, data)[i].source == sources[id][i])
  {
  }

  /** A record is found exactly when its id is listed and it is stored. */
  lemma {:induction false} RecordsMember(qs: seq<string>, ids: seq<string>, sources: map<string, seq<string>>,
                                         data: map<string, map<string, Hotel>>, length: nat)
    requires RawValid(ids, sources, data, length)
    ensures forall h :: h in Records(qs, sources, data) <==>
      h.hotelId in qs && h.hotelId in data && h.source in data[h.hotelId] && data[h.hotelId][h.source] == h
    decreases |qs|
  {
    if qs != [] {
      var n := |qs| - 1;
      var q := qs[n];
      RecordsMember(qs[..n], ids, sources, data, length);
      RecordsOfSpec(q, ids, sources, data, length);
      assert qs == qs[..n] + [q];
      var rs := RecordsOf(q, sources, data);
      forall h | h in rs
        ensures h.hotelId == q && h.hotelId in data && h.source in data[h.hotelId] && data[h.hotelId][h.source] == h
      {
        var i :| 0 <= i < |rs| && rs[i] == h;
      }
      forall h: Hotel | h.hotelId == q && h.hotelId in data && h.source in data[h.hotelId] && data[h.hotelId][h.source] == h
        ensures h in rs
      {
        var i :| 0 <= i < |sources[q]| && sources[q][i] == h.source;
        assert rs[i] == h;
      }
    }
  }

  class RawHotelDB {
    /** The keys of `data` in insertion order. */
    var ids: seq<string>
    /** For each id, the keys of `data[id]` in insertion order. */
    var sources: map<string, seq<string>>
    var data: map<string, map<string, Hotel>>
    /** `_length`. */
    var length: nat

    /** Both key orders list each key once; every stored id has at least one
        source; each record is filed under its own id and source; and
        `_length` is the number of stored pairs. */
    ghost predicate Valid()
      reads this
    {
      RawValid(ids, sources, data, length)
    }

    constructor ()
      ensures Valid() && ids == [] && sources == map[] && data == map[] && length == 0
    {
      ids, sources, data, length := [], map[], map[], 0;
    }

    /** `length()`: the number of stored (id, source) pairs. */
    function Length(): (r: nat)
      reads this
      requires Valid()
      ensures r == Pairs(ids, sources)
    {
      length
    }

    /** `update_one`: the record is filed under its id and source; a new id
        is appended to the id order and a new source to that id's source
        order, and `_length` grows only for a new pair. */
    method UpdateOne(h: Hotel) returns (r: Hotel)
      requires Valid()
      modifies this
      ensures Valid()
      ensures r == h
      ensures data == Put(old(data), h)
      ensures ids == if h.hotelId in old(data) then old(ids) else old(ids) + [h.hotelId]
      ensures sources == AddSource(old(sources), h)
      ensures length == old(length) + (if h.hotelId in old(data) && h.source in old(data)[h.hotelId] then 0 else 1)
    {
      var k, s := h.hotelId, h.source;
      if k in data {
        if s !in data[k] {
          NewSourceValid(ids, sources, data, length, h);
          length := length + 1;
          sources := sources[k := sources[k] + [s]];
        } else {
          OldSourceValid(ids, sources, data, length, h);
          assert sources == sources[k := sources[k]];
        }
      } else {
        NewIdValid(ids, sources, data, length, h);
        sources := sources[k := [s]];
        ids := ids + [k];
        length := length + 1;
      }
      data := Put(data, h);
      r := h;
    }

    /** `update_many`: `update_one` on each hotel in order. */
    method UpdateMany(hs: seq<Hotel>) returns (r: seq<Hotel>)
      requires Valid()
      modifies this
      ensures Valid()
      ensures r == hs
      ensures data == Puts(old(data), hs)
      ensures ids == AppendNew(old(ids), IdsOf(hs))
      ensures sources == SourcesAfter(old(sources), hs)
    {
      var i := 0;
      while i < |hs|
        invariant 0 <= i <= |hs|
        invariant Valid()
        invariant data == Puts(old(data), hs[..i])
        invariant ids == AppendNew(old(ids), IdsOf(hs[..i]))
        invariant sources == SourcesAfter(old(sources), hs[..i])
      {
        PutsStep(old(ids), old(data), hs, i, ids, data);
        SourcesAfterStep(old(sources), hs, i);
        var _ := UpdateOne(hs[i]);
        i := i + 1;
      }
      assert hs[..|hs|] == hs;
      r := hs;
    }

    /** `find`: a given destination finds nothing; otherwise the record of
        the id's first-inserted source, if the id is stored. */
    function Find(id: string, dest: Option<int>): (r: Option<Hotel>)
      reads this
      requires Valid()
      ensures GivenDestination(dest) ==> r.None?
      ensures !GivenDestination(dest) ==> (r.Some? <==> id in data)
      ensures r.Some? ==> (id in data && r.value == data[id][sources[id][0]]
        && r.value.hotelId == id && r.value.source == sources[id][0])
    {
      if GivenDestination(dest) then None
      else if id in data then Some(data[id][sources[id][0]])
      else None
    }

    /** `find_all`: no ids give nothing; otherwise the records of each listed
        id, in list order and repeated for a repeated id.  The destination
        filter is ignored. */
    method FindAll(hotelIds: Option<seq<string>>, destIds: Option<seq<int>>) returns (r: seq<Hotel>)
      requires Valid()
      ensures r == if NonEmpty(hotelIds) then Records(hotelIds.value, sources, data) else []
    {
      if !NonEmpty(hotelIds) {
        return [];
      }
      var qs, srcs, recs := hotelIds.value, sources, data;
      assert forall k :: k in recs ==> k in srcs;
      r := [];
      var i := 0;
      while i < |qs|
        invariant 0 <= i <= |qs|
        invariant r == Records(qs[..i], srcs, recs)
      {
        RecordsStep(qs, i, srcs, recs);
        if qs[i] in recs {
          r := r + ValuesIn(srcs[qs[i]], recs[qs[i]]);
        }
        i := i + 1;
      }
      assert qs[..|qs|] == qs;
    }
  }
}
