/** `HotelService` of `services/hotel.py`: it normalises the fetched records
    (upserting them into the raw store when there is one), groups them by
    hotel id and merges each group, either from the group itself or, when
    there is a raw store, from that store's records of the id. */
module Service {
  import opened Wrappers
  import opened Sequences
  import opened Models
  import opened Bias
  import opened Normalizer
  import opened DataMerger
  import opened Database

  /** The records with id `k`, in input order. */
  function GroupOf(hs: seq<Hotel>, k: string): (r: seq<Hotel>)
    ensures |r| <= |hs|
    ensures forall i :: 0 <= i < |r| ==> r[i].hotelId == k
    decreases |hs|
  {
    if hs == [] then []
    else
      var n := |hs| - 1;
      GroupOf(hs[..n], k) + (if hs[n].hotelId == k then [hs[n]] else [])
  }

  /** What `_group_hotels_by_id` holds after the first `i` records: the ids
      seen so far in order of first appearance, each with its group. */
  ghost predicate GroupedPrefix(hs: seq<Hotel>, i: nat, ids: seq<string>, groups: map<string, seq<Hotel>>)
    requires i <= |hs|
  {
    && ids == Dedup(IdsOf(hs[..i]))
    && (forall k :: k in groups <==> k in ids)
    && (forall k :: k in groups ==> groups[k] == GroupOf(hs[..i], k))
    && (forall k :: k !in groups ==> GroupOf(hs[..i], k) == [])
  }

  /** One pass of the grouping loop keeps `GroupedPrefix`. */
  lemma GroupStep(hs: seq<Hotel>, i: nat, ids: seq<string>, groups: map<string, seq<Hotel>>)
    requires i < |hs| && GroupedPrefix(hs, i, ids, groups)
    ensures var h := hs[i];
      GroupedPrefix(hs, i + 1,
        if h.hotelId in groups then ids else ids + [h.hotelId],
        if h.hotelId in groups then groups[h.hotelId := groups[h.hotelId] + [h]] else groups[h.hotelId := [h]])
  {
    var h := hs[i];
    assert hs[..i + 1][..i] == hs[..i];
    IdsOfSnoc(hs, i);
    assert AppendNew([], IdsOf(hs[..i + 1])) ==
      if h.hotelId in ids then ids else ids + [h.hotelId];
  }

  /** The groups of the given ids, in the order of the ids. */
  function GroupsFor(ks: seq<string>, hs: seq<Hotel>): (r: seq<seq<Hotel>>)
    ensures |r| == |ks| && forall i :: 0 <= i < |ks| ==> r[i] == GroupOf(hs, ks[i])
  {
    seq(|ks|, i requires 0 <= i < |ks| => GroupOf(hs, ks[i]))
  }

  /** `_group_hotels_by_id` read in order: one group per distinct id, the ids
      in order of first appearance. */
  function Groups(hs: seq<Hotel>): (r: seq<seq<Hotel>>)
    ensures |r| == |Dedup(IdsOf(hs))|
    ensures forall i, j :: 0 <= i < |r| && 0 <= j < |r[i]| ==> r[i][j].hotelId == Dedup(IdsOf(hs))[i]
  {
    GroupsFor(Dedup(IdsOf(hs)), hs)
  }

  /** The normalised records, `DataNormalizer.normalize` of the whole list. */
  function NormalizeAll(ns: seq<Attribute>, hs: seq<Hotel>): (r: seq<Hotel>)
    ensures |r| == |hs| && forall i :: 0 <= i < |hs| ==> r[i] == NormalizeHotel(ns, hs[i])
  {
    seq(|hs|, i requires 0 <= i < |hs| => NormalizeHotel(ns, hs[i]))
  }

  /** The loop of `_merge_hotels_with_db` / `_merge_hotels_without_db` over
      the merge batches: a falsy (`None`) merge result is skipped, and the
      first `MergerException` ends the loop. At most one record comes from
      each batch, and each is a well-formed merged record. */
  function MergeGroups(t: Table, ms: seq<Attribute>, bs: seq<seq<Hotel>>): (r: Result<seq<Hotel>, MergeError>)
    ensures r.Ok? ==> |r.value| <= |bs|
    ensures r.Ok? ==> forall i :: 0 <= i < |r.value| ==>
      r.value[i].source == "merged" && WellFormedLocation(r.value[i].location)
    decreases |bs|
  {
    if bs == [] then Ok([])
    else
      var n := |bs| - 1;
      match MergeGroups(t, ms, bs[..n])
      case Err(e) => Err(e)
      case Ok(acc) =>
        match MergeSpec(t, ms, bs[n])
        case Err(e) => Err(e)
        case Ok(None) => Ok(acc)
        case Ok(Some(h)) => Ok(acc + [h])
  }

  /** One more batch: its merge result decides the next state of the loop. */
  lemma MergeGroupsStep(t: Table, ms: seq<Attribute>, bs: seq<seq<Hotel>>, i: nat, acc: seq<Hotel>,
                        r: Result<Option<Hotel>, MergeError>)
    requires i < |bs| && MergeGroups(t, ms, bs[..i]) == Ok(acc) && r == MergeSpec(t, ms, bs[i])
    ensures r.Err? ==> MergeGroups(t, ms, bs[..i + 1]) == Err(r.error)
    ensures r == Ok(None) ==> MergeGroups(t, ms, bs[..i + 1]) == Ok(acc)
    ensures r.Ok? && r.value.Some? ==> MergeGroups(t, ms, bs[..i + 1]) == Ok(acc + [r.value.value])
  {
    assert bs[..i + 1][..i] == bs[..i];
  }

  /** With a raw store, the batch of each id is what the store finds for that
      id alone. */
  function StoreBatches(ks: seq<string>, sources: map<string, seq<string>>,
                        data: map<string, map<string, Hotel>>): (r: seq<seq<Hotel>>)
    ensures |r| == |ks| && forall i :: 0 <= i < |ks| ==> r[i] == Records([ks[i]], sources, data)
  {
    seq(|ks|, i requires 0 <= i < |ks| => Records([ks[i]], sources, data))
  }

  class HotelService {
    var data: seq<Hotel>
    /** The keys of the normaliser dictionary, in order. */
    const ns: seq<Attribute>
    /** The keys of the merger dictionary, in order. */
    const ms: seq<Attribute>
    /** The bias table the mergers share. */
    const table: Table
    /** The optional raw store; `None` is `null`. */
    const rawDb: RawHotelDB?

    ghost predicate Valid()
      reads this, if rawDb != null then {rawDb} else {}
    {
      rawDb != null ==> rawDb.Valid()
    }

    constructor (data: seq<Hotel>, ns: seq<Attribute>, ms: seq<Attribute>, table: Table, rawDb: RawHotelDB?)
      requires rawDb != null ==> rawDb.Valid()
      ensures Valid()
      ensures this.data == data && this.ns == ns && this.ms == ms && this.table == table && this.rawDb == rawDb
    {
      this.data, this.ns, this.ms, this.table, this.rawDb := data, ns, ms, table, rawDb;
    }

    /** `normalize_hotels`: the records are normalised in place, then, when
        there is a raw store, upserted into it in order. */
    method NormalizeHotels()
      requires Valid()
      modifies this, if rawDb != null then {rawDb} else {}
      ensures Valid()
      ensures data == NormalizeAll(ns, old(data))
      ensures rawDb != null ==>
        && rawDb.data == Puts(old(rawDb.data), data) && rawDb.ids == AppendNew(old(rawDb.ids), IdsOf(data))
        && rawDb.sources == SourcesAfter(old(rawDb.sources), data)
    {
      var a := new Hotel[|data|](i requires 0 <= i < |data| reads this => data[i]);
      Normalize(a, ns);
      data := a[..];
      if rawDb != null {
        UpdateRawHotelDB();
      }
    }

    /** `_update_raw_hotel_db`: `update_one` on every record, in order. */
    method UpdateRawHotelDB()
      requires rawDb != null && rawDb.Valid()
      modifies rawDb
      ensures rawDb.Valid()
      ensures rawDb.data == Puts(old(rawDb.data), data) && rawDb.ids == AppendNew(old(rawDb.ids), IdsOf(data))
      ensures rawDb.sources == SourcesAfter(old(rawDb.sources), data)
    {
      var hs, db := data, rawDb;
      var i := 0;
      while i < |hs|
        invariant 0 <= i <= |hs|
        invariant db.Valid()
        invariant db.data == Puts(old(db.data), hs[..i])
        invariant db.ids == AppendNew(old(db.ids), IdsOf(hs[..i]))
        invariant db.sources == SourcesAfter(old(db.sources), hs[..i])
      {
        PutsStep(old(db.ids), old(db.data), hs, i, db.ids, db.data);
        SourcesAfterStep(old(db.sources), hs, i);
        var _ := db.UpdateOne(hs[i]);
        i := i + 1;
      }
      assert hs[..|hs|] == hs;
    }

    /** `_group_hotels_by_id`: a dictionary from each id, in order of first
        appearance, to its records in input order. */
    method GroupHotelsById() returns (ids: seq<string>, groups: map<string, seq<Hotel>>)
      ensures ids == Dedup(IdsOf(data))
      ensures forall k :: k in groups <==> k in ids
      ensures forall k :: k in groups ==> groups[k] == GroupOf(data, k)
    {
      var hs := data;
      ids, groups := [], map[];
      var i := 0;
      while i < |hs|
        invariant 0 <= i <= |hs|
        invariant GroupedPrefix(hs, i, ids, groups)
      {
        var h := hs[i];
        GroupStep(hs, i, ids, groups);
        if h.hotelId !in groups {
          groups := groups[h.hotelId := [h]];
          ids := ids + [h.hotelId];
        } else {
          groups := groups[h.hotelId := groups[h.hotelId] + [h]];
        }
        i := i + 1;
      }
      assert hs[..|hs|] == hs;
    }

    /** `_merge_hotels_with_db`: each id's batch comes from the raw store
        alone; `data` is replaced only when every merge succeeded. */
    method MergeHotelsWithDb(ids: seq<string>) returns (failure: Option<MergeError>)
      requires rawDb != null && rawDb.Valid()
      modifies this
      ensures var out := MergeGroups(table, ms, StoreBatches(ids, rawDb.sources, rawDb.data));
        && (out.Ok? ==> failure.None? && data == out.value)
        && (out.Err? ==> failure == Some(out.error) && data == old(data))
    {
      var db, t, m := rawDb, table, ms;
      var bs := StoreBatches(ids, db.sources, db.data);
      var merged := [];
      var i := 0;
      while i < |ids|
        invariant 0 <= i <= |ids|
        invariant MergeGroups(t, m, bs[..i]) == Ok(merged)
        modifies {}
      {
        var batch := db.FindAll(Some([ids[i]]), None);
        assert batch == bs[i];
        var result := Merge(t, m, batch);
        MergeGroupsStep(t, m, bs, i, merged, result);
        if result.Err? {
          MergeGroupsFail(t, m, bs, i + 1);
          return Some(result.error);
        }
        if result.value.Some? {
          merged := merged + [result.value.value];
        }
        i := i + 1;
      }
      assert bs[..|ids|] == bs;
      data := merged;
      failure := None;
    }

    /** `_merge_hotels_without_db`: each group is merged from its own
        records; `data` is replaced only when every merge succeeded. */
    method MergeHotelsWithoutDb(ids: seq<string>, groups: map<string, seq<Hotel>>) returns (failure: Option<MergeError>)
      requires forall k :: k in ids ==> k in groups
      modifies this
      ensures var out := MergeGroups(table, ms, seq(|ids|, i requires 0 <= i < |ids| => groups[ids[i]]));
        && (out.Ok? ==> failure.None? && data == out.value)
        && (out.Err? ==> failure == Some(out.error) && data == old(data))
    {
      var bs := seq(|ids|, i requires 0 <= i < |ids| => groups[ids[i]]);
      var merged := [];
      var i := 0;
      while i < |ids|
        invariant 0 <= i <= |ids|
        invariant MergeGroups(table, ms, bs[..i]) == Ok(merged)
        invariant data == old(data)
      {
        var result := Merge(table, ms, groups[ids[i]]);
        MergeGroupsStep(table, ms, bs, i, merged, result);
        if result.Err? {
          MergeGroupsFail(table, ms, bs, i + 1);
          return Some(result.error);
        }
        if result.value.Some? {
          merged := merged + [result.value.value];
        }
        i := i + 1;
      }
      assert bs[..|ids|] == bs;
      data := merged;
      failure := None;
    }

    /** `merge_hotels`: group, then merge each group, from the raw store
        when there is one; on a failure `data` is left as it was. */
    method MergeHotels() returns (failure: Option<MergeError>)
      requires Valid()
      modifies this
      ensures Valid()
      ensures var bs := if rawDb != null then StoreBatches(Dedup(IdsOf(old(data))), rawDb.sources, rawDb.data)
                        else Groups(old(data));
        var out := MergeGroups(table, ms, bs);
        && (out.Ok? ==> failure.None? && data == out.value)
        && (out.Err? ==> failure == Some(out.error) && data == old(data))
    {
      var ids, groups := GroupHotelsById();
      if rawDb != null {
        failure := MergeHotelsWithDb(ids);
      } else {
        assert seq(|ids|, i requires 0 <= i < |ids| => groups[ids[i]]) == Groups(old(data));
        failure := MergeHotelsWithoutDb(ids, groups);
      }
    }
  }

  // ---------------------------------------------------------------------
  // Properties

  /** Once a merge has raised, the loop over the groups fails. */
  lemma {:induction false} MergeGroupsFail(t: Table, ms: seq<Attribute>, bs: seq<seq<Hotel>>, i: nat)
    requires i <= |bs| && MergeGroups(t, ms, bs[..i]).Err?
    ensures MergeGroups(t, ms, bs) == MergeGroups(t, ms, bs[..i])
    decreases |bs| - i
  {
    if i < |bs| {
      assert bs[..i + 1][..i] == bs[..i];
      MergeGroupsFail(t, ms, bs, i + 1);
    } else {
      assert bs[..i] == bs;
    }
  }

  /** A group holds each record with its id as often as the input does, and
      no other record. */
  lemma {:induction false} GroupOfCount(hs: seq<Hotel>, k: string, h: Hotel)
    ensures multiset(GroupOf(hs, k))[h] == if h.hotelId == k then multiset(hs)[h] else 0
    decreases |hs|
  {
    if hs != [] {
      var n := |hs| - 1;
      GroupOfCount(hs[..n], k, h);
      assert hs == hs[..n] + [hs[n]];
      var tail := if hs[n].hotelId == k then [hs[n]] else [];
      assert multiset(GroupOf(hs, k)) == multiset(GroupOf(hs[..n], k)) + multiset(tail);
      assert multiset(hs) == multiset(hs[..n]) + multiset([hs[n]]);
    }
  }

  /** A group holds exactly the records with its id; it is empty exactly
      when no record has the id. */
  lemma GroupOfSpec(hs: seq<Hotel>, k: string)
    ensures forall h :: h in GroupOf(hs, k) <==> h in hs && h.hotelId == k
    ensures GroupOf(hs, k) == [] <==> k !in IdsOf(hs)
  {
    forall h ensures h in GroupOf(hs, k) <==> h in hs && h.hotelId == k {
      GroupOfCount(hs, k, h);
      assert h in GroupOf(hs, k) <==> multiset(GroupOf(hs, k))[h] > 0;
      assert h in hs <==> multiset(hs)[h] > 0;
    }
    if k in IdsOf(hs) {
      var i :| 0 <= i < |hs| && IdsOf(hs)[i] == k;
      assert hs[i] in GroupOf(hs, k);
    }
    if GroupOf(hs, k) != [] {
      var h := GroupOf(hs, k)[0];
      assert h in GroupOf(hs, k);
      var i :| 0 <= i < |hs| && hs[i] == h;
      assert IdsOf(hs)[i] == k;
    }
  }

  /** The groups of distinct ids together hold every record whose id is
      listed, each as often as in the input. */
  lemma {:induction false} GroupsForFlatten(ks: seq<string>, hs: seq<Hotel>, h: Hotel)
    requires NoDup(ks)
    ensures multiset(Flatten(GroupsFor(ks, hs)))[h] == if h.hotelId in ks then multiset(hs)[h] else 0
    decreases |ks|
  {
    if ks != [] {
      var n := |ks| - 1;
      var gs := GroupsFor(ks, hs);
      assert NoDup(ks[..n]);
      GroupsForFlatten(ks[..n], hs, h);
      assert gs[..n] == GroupsFor(ks[..n], hs);
      assert Flatten(gs) == Flatten(GroupsFor(ks[..n], hs)) + GroupOf(hs, ks[n]);
      assert multiset(Flatten(gs)) == multiset(Flatten(GroupsFor(ks[..n], hs))) + multiset(GroupOf(hs, ks[n]));
      GroupOfCount(hs, ks[n], h);
      assert ks == ks[..n] + [ks[n]];
      assert ks[n] !in ks[..n];
    }
  }

  /** `_group_hotels_by_id` partitions the records: no group is empty, and
      all groups together are a permutation of the input. */
  lemma GroupsSpec(hs: seq<Hotel>)
    ensures forall i :: 0 <= i < |Groups(hs)| ==> Groups(hs)[i] != []
    ensures multiset(Flatten(Groups(hs))) == multiset(hs)
  {
    var ks := Dedup(IdsOf(hs));
    DedupFirstSeen(IdsOf(hs));
    forall i | 0 <= i < |ks|
      ensures Groups(hs)[i] != []
    {
      GroupOfSpec(hs, ks[i]);
      assert ks[i] in ks;
    }
    forall h ensures multiset(Flatten(Groups(hs)))[h] == multiset(hs)[h] {
      GroupsForFlatten(ks, hs, h);
      if h in hs {
        var i :| 0 <= i < |hs| && hs[i] == h;
        assert IdsOf(hs)[i] == h.hotelId;
      } else {
        assert multiset(hs)[h] == 0;
      }
    }
  }

  /** The loop over the batches raises exactly when the merge of some batch
      raises, and then with the error of the first such batch. */
  lemma MergeGroupsFailure(t: Table, ms: seq<Attribute>, bs: seq<seq<Hotel>>)
    ensures MergeGroups(t, ms, bs).Err? <==> exists i :: 0 <= i < |bs| && MergeSpec(t, ms, bs[i]).Err?
    ensures MergeGroups(t, ms, bs).Err? ==>
      exists i :: 0 <= i < |bs| && MergeSpec(t, ms, bs[i]) == Err(MergeGroups(t, ms, bs).error)
        && forall j :: 0 <= j < i ==> MergeSpec(t, ms, bs[j]).Ok?
  {
    MergeGroupsRaises(t, ms, bs);
    if MergeGroups(t, ms, bs).Err? {
      MergeGroupsFirstError(t, ms, bs);
    }
  }

  /** The loop raises exactly when some batch's merge raises. */
  lemma {:induction false} MergeGroupsRaises(t: Table, ms: seq<Attribute>, bs: seq<seq<Hotel>>)
    ensures MergeGroups(t, ms, bs).Err? <==> exists i :: 0 <= i < |bs| && MergeSpec(t, ms, bs[i]).Err?
    decreases |bs|
  {
    if bs != [] {
      var n := |bs| - 1;
      var p := bs[..n];
      MergeGroupsRaises(t, ms, p);
      if MergeGroups(t, ms, p).Err? {
        var i :| 0 <= i < n && MergeSpec(t, ms, p[i]).Err?;
        assert p[i] == bs[i];
      } else if MergeSpec(t, ms, bs[n]).Ok? {
        forall i | 0 <= i < |bs|
          ensures MergeSpec(t, ms, bs[i]).Ok?
        {
          if i < n {
            assert p[i] == bs[i];
          }
        }
      }
    }
  }

  /** The error the loop raises is that of the first batch whose merge
      raises. */
  lemma {:induction false} MergeGroupsFirstError(t: Table, ms: seq<Attribute>, bs: seq<seq<Hotel>>)
    requires MergeGroups(t, ms, bs).Err?
    ensures exists i :: 0 <= i < |bs| && MergeSpec(t, ms, bs[i]) == Err(MergeGroups(t, ms, bs).error)
                        && (forall j :: 0 <= j < i ==> MergeSpec(t, ms, bs[j]).Ok?)
    decreases |bs|
  {
    var n := |bs| - 1;
    if MergeGroups(t, ms, bs[..n]).Err? {
      MergeGroupsFirstError(t, ms, bs[..n]);
      var i :| 0 <= i < n && MergeSpec(t, ms, bs[..n][i]) == Err(MergeGroups(t, ms, bs[..n]).error)
        && forall j :: 0 <= j < i ==> MergeSpec(t, ms, bs[..n][j]).Ok?;
      assert bs[..n][i] == bs[i];
      forall j | 0 <= j < i
        ensures MergeSpec(t, ms, bs[j]).Ok?
      {
        assert bs[..n][j] == bs[j];
      }
    } else {
      MergeGroupsRaises(t, ms, bs[..n]);
      forall j | 0 <= j < n
        ensures MergeSpec(t, ms, bs[j]).Ok?
      {
        assert bs[..n][j] == bs[j];
      }
    }
  }


  /** On success the merged list has at most one record per batch. */
  lemma {:induction false} MergeGroupsLength(t: Table, ms: seq<Attribute>, bs: seq<seq<Hotel>>)
    ensures MergeGroups(t, ms, bs).Ok? ==> |MergeGroups(t, ms, bs).value| <= |bs|
    decreases |bs|
  {
    if bs != [] {
      MergeGroupsLength(t, ms, bs[..|bs| - 1]);
    }
  }

  /** On success the merged list holds the record of every batch whose merge
      returned one, and nothing else. */
  lemma MergeGroupsMembers(t: Table, ms: seq<Attribute>, bs: seq<seq<Hotel>>)
    ensures MergeGroups(t, ms, bs).Ok? ==> forall h :: h in MergeGroups(t, ms, bs).value <==>
      exists i :: 0 <= i < |bs| && MergeSpec(t, ms, bs[i]) == Ok(Some(h))
  {
    if MergeGroups(t, ms, bs).Ok? {
      forall h | h in MergeGroups(t, ms, bs).value
        ensures exists i :: 0 <= i < |bs| && MergeSpec(t, ms, bs[i]) == Ok(Some(h))
      {
        MergeGroupsSound(t, ms, bs, h);
      }
      forall h, i | 0 <= i < |bs| && MergeSpec(t, ms, bs[i]) == Ok(Some(h))
        ensures h in MergeGroups(t, ms, bs).value
      {
        MergeGroupsComplete(t, ms, bs, i);
      }
    }
  }

  /** A successful merge of a non-empty list of batches extends the merge of
      all but the last batch by the last batch's record, if any. */
  lemma MergeGroupsLast(t: Table, ms: seq<Attribute>, bs: seq<seq<Hotel>>)
    requires bs != [] && MergeGroups(t, ms, bs).Ok?
    ensures var n := |bs| - 1; var r := MergeSpec(t, ms, bs[n]);
      && MergeGroups(t, ms, bs[..n]).Ok? && r.Ok?
      && MergeGroups(t, ms, bs).value ==
        MergeGroups(t, ms, bs[..n]).value + (if r.value.Some? then [r.value.value] else [])
  {
  }

  /** Every merged record is the record some batch merged to. */
  lemma {:induction false} MergeGroupsSound(t: Table, ms: seq<Attribute>, bs: seq<seq<Hotel>>, h: Hotel)
    requires MergeGroups(t, ms, bs).Ok? && h in MergeGroups(t, ms, bs).value
    ensures exists i :: 0 <= i < |bs| && MergeSpec(t, ms, bs[i]) == Ok(Some(h))
    decreases |bs|
  {
    var n := |bs| - 1;
    MergeGroupsLast(t, ms, bs);
    var acc := MergeGroups(t, ms, bs[..n]).value;
    var r := MergeSpec(t, ms, bs[n]);
    if h in acc {
      MergeGroupsSound(t, ms, bs[..n], h);
      var i :| 0 <= i < n && MergeSpec(t, ms, bs[..n][i]) == Ok(Some(h));
      assert bs[..n][i] == bs[i];
    } else {
      assert r == Ok(Some(h));
    }
  }

  /** The record of every batch that merged to one is in the merged list. */
  lemma {:induction false} MergeGroupsComplete(t: Table, ms: seq<Attribute>, bs: seq<seq<Hotel>>, i: nat)
    requires MergeGroups(t, ms, bs).Ok? && i < |bs| && MergeSpec(t, ms, bs[i]).Ok? && MergeSpec(t, ms, bs[i]).value.Some?
    ensures MergeSpec(t, ms, bs[i]).value.value in MergeGroups(t, ms, bs).value
    decreases |bs|
  {
    var n := |bs| - 1;
    MergeGroupsLast(t, ms, bs);
    var acc := MergeGroups(t, ms, bs[..n]).value;
    var r := MergeSpec(t, ms, bs[n]);
    var x := MergeSpec(t, ms, bs[i]).value.value;
    var tail := if r.value.Some? then [r.value.value] else [];
    if i < n {
      assert bs[..n][i] == bs[i];
      MergeGroupsComplete(t, ms, bs[..n], i);
      assert x in acc;
    } else {
      assert tail == [x];
    }
    assert MergeGroups(t, ms, bs).value == acc + tail;
  }

  /** When no batch is empty, success yields exactly one record per batch,
      in batch order. */
  lemma {:induction false} MergeGroupsAll(t: Table, ms: seq<Attribute>, bs: seq<seq<Hotel>>)
    requires forall i :: 0 <= i < |bs| ==> bs[i] != []
    ensures MergeGroups(t, ms, bs).Ok? ==>
      |MergeGroups(t, ms, bs).value| == |bs|
      && forall i :: 0 <= i < |bs| ==> MergeSpec(t, ms, bs[i]) == Ok(Some(MergeGroups(t, ms, bs).value[i]))
    decreases |bs|
  {
    if bs != [] && MergeGroups(t, ms, bs).Ok? {
      var n := |bs| - 1;
      var init := bs[..n];
      forall i | 0 <= i < n ensures init[i] != [] {
        assert init[i] == bs[i];
      }
      MergeGroupsAll(t, ms, init);
      MergeSpecResult(t, ms, bs[n]);
      var acc := MergeGroups(t, ms, init).value;
      var x := MergeSpec(t, ms, bs[n]).value.value;
      var out := MergeGroups(t, ms, bs).value;
      assert out == acc + [x];
      forall i | 0 <= i < |bs|
        ensures MergeSpec(t, ms, bs[i]) == Ok(Some(out[i]))
      {
        if i < n {
          assert init[i] == bs[i] && out[i] == acc[i];
        }
      }
    }
  }

  /** Without a raw store: merging fails exactly when some group's merge
      fails; otherwise the result has one record per distinct input id, in
      order of first appearance (so no id occurs twice), each the merge of
      that id's group. */
  lemma MergeWithoutStore(t: Table, ms: seq<Attribute>, hs: seq<Hotel>)
    ensures MergeGroups(t, ms, Groups(hs)).Err? <==>
      exists i :: 0 <= i < |hs| && MergeSpec(t, ms, GroupOf(hs, hs[i].hotelId)).Err?
    ensures MergeGroups(t, ms, Groups(hs)).Ok? ==>
      var out := MergeGroups(t, ms, Groups(hs)).value;
      && IdsOf(out) == Dedup(IdsOf(hs)) && NoDup(IdsOf(out))
      && forall i :: 0 <= i < |out| ==>
        Groups(hs)[i] != [] && MergedRecord(t, ms, Groups(hs)[i], out[i])
  {
    GroupsFailure(t, ms, hs);
    GroupsMerged(t, ms, hs);
  }

  /** Merging the groups fails exactly when the merge of some record's group
      fails. */
  lemma GroupsFailure(t: Table, ms: seq<Attribute>, hs: seq<Hotel>)
    ensures MergeGroups(t, ms, Groups(hs)).Err? <==>
      exists i :: 0 <= i < |hs| && MergeSpec(t, ms, GroupOf(hs, hs[i].hotelId)).Err?
  {
    var ks := Dedup(IdsOf(hs));
    var bs := Groups(hs);
    DedupFirstSeen(IdsOf(hs));
    MergeGroupsFailure(t, ms, bs);
    if MergeGroups(t, ms, bs).Err? {
      var i :| 0 <= i < |bs| && MergeSpec(t, ms, bs[i]).Err?;
      assert ks[i] in IdsOf(hs);
      var q :| 0 <= q < |hs| && IdsOf(hs)[q] == ks[i];
      assert GroupOf(hs, hs[q].hotelId) == bs[i];
    }
    if exists i :: 0 <= i < |hs| && MergeSpec(t, ms, GroupOf(hs, hs[i].hotelId)).Err? {
      var i :| 0 <= i < |hs| && MergeSpec(t, ms, GroupOf(hs, hs[i].hotelId)).Err?;
      assert IdsOf(hs)[i] in ks;
      var j :| 0 <= j < |ks| && ks[j] == hs[i].hotelId;
      assert bs[j] == GroupOf(hs, hs[i].hotelId);
    }
  }

  /** A successful merge of the groups has one merged record per group, in
      group order, each carrying its group's id. */
  lemma GroupsMerged(t: Table, ms: seq<Attribute>, hs: seq<Hotel>)
    ensures MergeGroups(t, ms, Groups(hs)).Ok? ==>
      var out := MergeGroups(t, ms, Groups(hs)).value;
      && IdsOf(out) == Dedup(IdsOf(hs)) && NoDup(IdsOf(out))
      && forall i :: 0 <= i < |out| ==>
        Groups(hs)[i] != [] && MergedRecord(t, ms, Groups(hs)[i], out[i])
  {
    var ks := Dedup(IdsOf(hs));
    var bs := Groups(hs);
    GroupsSpec(hs);
    DedupFirstSeen(IdsOf(hs));
    MergeGroupsAll(t, ms, bs);
    if MergeGroups(t, ms, bs).Ok? {
      var out := MergeGroups(t, ms, bs).value;
      forall i | 0 <= i < |out| ensures out[i].hotelId == ks[i] && MergedRecord(t, ms, bs[i], out[i]) {
        MergeSpecResult(t, ms, bs[i]);
        var g := bs[i];
        assert g[|g| - 1] in g;
      }
      assert IdsOf(out) == ks;
    }
  }

  /** A raw-store batch is the records of its id, in source order. */
  lemma StoreBatchOf(k: string, ids: seq<string>, sources: map<string, seq<string>>,
                     data: map<string, map<string, Hotel>>, length: nat)
    requires RawValid(ids, sources, data, length)
    ensures Records([k], sources, data) == RecordsOf(k, sources, data)
    ensures Records([k], sources, data) != [] <==> k in data
    ensures forall h :: h in Records([k], sources, data) ==> h.hotelId == k
  {
    assert [k][..0] == [];
    RecordsOfSpec(k, ids, sources, data, length);
    if k in data {
      assert sources[k] != [];
    }
    forall h | h in RecordsOf(k, sources, data) ensures h.hotelId == k {
      var i :| 0 <= i < |RecordsOf(k, sources, data)| && RecordsOf(k, sources, data)[i] == h;
    }
  }

  /** With a raw store that holds every grouped id: merging fails exactly
      when the merge of some id's stored records fails; otherwise the result
      has one record per id, in order, each the merge of that id's stored
      records. */
  lemma MergeWithStore(t: Table, ms: seq<Attribute>, ks: seq<string>, ids: seq<string>,
                       sources: map<string, seq<string>>, data: map<string, map<string, Hotel>>, length: nat)
    requires RawValid(ids, sources, data, length)
    requires forall k :: k in ks ==> k in data
    ensures MergeGroups(t, ms, StoreBatches(ks, sources, data)).Err? <==>
      exists i :: 0 <= i < |ks| && MergeSpec(t, ms, RecordsOf(ks[i], sources, data)).Err?
    ensures MergeGroups(t, ms, StoreBatches(ks, sources, data)).Ok? ==>
      var out := MergeGroups(t, ms, StoreBatches(ks, sources, data)).value;
      && IdsOf(out) == ks
      && forall i :: 0 <= i < |out| ==>
        RecordsOf(ks[i], sources, data) != [] && MergedRecord(t, ms, RecordsOf(ks[i], sources, data), out[i])
  {
    var bs := StoreBatches(ks, sources, data);
    forall i | 0 <= i < |ks|
      ensures bs[i] == RecordsOf(ks[i], sources, data) && bs[i] != [] && forall h: Hotel :: h in bs[i] ==> h.hotelId == ks[i]
    {
      assert ks[i] in ks;
      StoreBatchOf(ks[i], ids, sources, data, length);
    }
    MergeGroupsFailure(t, ms, bs);
    MergeGroupsAll(t, ms, bs);
    if MergeGroups(t, ms, bs).Ok? {
      var out := MergeGroups(t, ms, bs).value;
      forall i | 0 <= i < |out| ensures out[i].hotelId == ks[i] && MergedRecord(t, ms, bs[i], out[i]) {
        MergeSpecResult(t, ms, bs[i]);
        var g := bs[i];
        assert g[|g| - 1] in g;
      }
      assert IdsOf(out) == ks;
    }
  }

  /** After the upserts of `normalize_hotels`, every normalised record's id
      is stored, so the store-backed merge covers every grouped id. */
  lemma UpsertedIdsStored(m: map<string, map<string, Hotel>>, hs: seq<Hotel>)
    ensures forall k :: k in Dedup(IdsOf(hs)) ==> k in Puts(m, hs)
  {
    PutsMember(m, hs);
    DedupFirstSeen(IdsOf(hs));
    forall k | k in Dedup(IdsOf(hs)) ensures k in Puts(m, hs) {
      var i :| 0 <= i < |hs| && IdsOf(hs)[i] == k;
      assert Carried(hs, k, hs[i].source);
    }
  }

  /** With a description normaliser configured, every normalised record has a
      description. */
  lemma NormalizedDescriptions(ns: seq<Attribute>, hs: seq<Hotel>)
    requires Distinct(ns) && DescriptionAttr in ns
    ensures forall i :: 0 <= i < |hs| ==> NormalizeAll(ns, hs)[i].description.Some?
  {
    forall i | 0 <= i < |hs| ensures NormalizeAll(ns, hs)[i].description.Some? {
      NormalizeHotelFields(ns, hs[i]);
    }
  }

  /** After `normalize_hotels` with a description normaliser, merging without
      a raw store can only fail in the images merger. */
  lemma MergeNormalizedFailure(t: Table, ns: seq<Attribute>, ms: seq<Attribute>, hs: seq<Hotel>)
    requires Distinct(ns) && DescriptionAttr in ns
    ensures MergeGroups(t, ms, Groups(NormalizeAll(ns, hs))).Err? ==>
      MergeGroups(t, ms, Groups(NormalizeAll(ns, hs))).error == FieldFailed(ImagesAttr)
  {
    var data := NormalizeAll(ns, hs);
    var bs := Groups(data);
    MergeGroupsFailure(t, ms, bs);
    if MergeGroups(t, ms, bs).Err? {
      var i :| 0 <= i < |bs| && MergeSpec(t, ms, bs[i]) == Err(MergeGroups(t, ms, bs).error);
      var g := bs[i];
      GroupsSpec(data);
      MergeSpecResult(t, ms, g);
      var j :| 0 <= j < |ms| && FieldFails(t, ms[j], g) && MergeSpec(t, ms, g).error == FieldFailed(ms[j]);
      GroupDescriptions(ns, hs, i);
      OnlyImagesFail(t, ms[j], g);
    }
  }

  /** After normalisation with a description normaliser, every record of every
      group has a description. */
  lemma GroupDescriptions(ns: seq<Attribute>, hs: seq<Hotel>, i: nat)
    requires Distinct(ns) && DescriptionAttr in ns
    requires i < |Groups(NormalizeAll(ns, hs))|
    ensures forall k :: 0 <= k < |Groups(NormalizeAll(ns, hs))[i]| ==>
      Groups(NormalizeAll(ns, hs))[i][k].description.Some?
  {
    var data := NormalizeAll(ns, hs);
    var g := Groups(data)[i];
    GroupsSpec(data);
    NormalizedDescriptions(ns, hs);
    GroupOfSpec(data, Dedup(IdsOf(data))[i]);
    forall k | 0 <= k < |g| ensures g[k].description.Some? {
      assert g[k] in g;
      var q :| 0 <= q < |data| && data[q] == g[k];
    }
  }

  /** With a raw store: once the fetched records are upserted, merging yields
      exactly one record per distinct fetched id, in order of first
      appearance. */
  lemma MergeAfterUpserts(t: Table, ms: seq<Attribute>, hs: seq<Hotel>, m: map<string, map<string, Hotel>>,
                          ids: seq<string>, sources: map<string, seq<string>>, data: map<string, map<string, Hotel>>,
                          length: nat)
    requires RawValid(ids, sources, data, length) && data == Puts(m, hs)
    ensures MergeGroups(t, ms, StoreBatches(Dedup(IdsOf(hs)), sources, data)).Ok? ==>
      IdsOf(MergeGroups(t, ms, StoreBatches(Dedup(IdsOf(hs)), sources, data)).value) == Dedup(IdsOf(hs))
  {
    UpsertedIdsStored(m, hs);
    MergeWithStore(t, ms, Dedup(IdsOf(hs)), ids, sources, data, length);
  }

  /** The normalisers `update_suppliers_data` configures, in order. */
  const ShippedNormalizers: seq<Attribute> :=
    [DescriptionAttr, LocationAttr, AmenitiesAttr, ImagesAttr, NameAttr, BookingConditionsAttr]

  /** The mergers `update_suppliers_data` configures, in order. */
  const ShippedMergers: seq<Attribute> :=
    [NameAttr, DescriptionAttr, LocationAttr, AmenitiesAttr, ImagesAttr, BookingConditionsAttr]

  /** Under the shipped configuration a failed merge of normalised records
      (without a raw store) is always the images merger's. */
  lemma ShippedMergeFailure(t: Table, hs: seq<Hotel>)
    ensures MergeGroups(t, ShippedMergers, Groups(NormalizeAll(ShippedNormalizers, hs))).Err? ==>
      MergeGroups(t, ShippedMergers, Groups(NormalizeAll(ShippedNormalizers, hs))).error == FieldFailed(ImagesAttr)
  {
    assert Distinct(ShippedNormalizers);
    assert ShippedNormalizers[0] == DescriptionAttr;
    MergeNormalizedFailure(t, ShippedNormalizers, ShippedMergers, hs);
  }
}
