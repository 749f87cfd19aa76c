/** Attribute merging of `services/merger.py`: five reduction rules over a
    batch of `(value, source)` pairs, one per hotel attribute, and
    `DataMerger.merge`, which runs the configured rules over a group of
    records of the same hotel and assembles the merged record.  Each rule is
    a method with the loop of the source, proved equal to a specification
    function over prefixes of the batch; the properties are proved about the
    specification functions. */
module Merger {
  import opened Wrappers
  import opened Sequences
  import opened Models
  import opened Bias

  /** `encode_merge_data(data, src)`: a value with the source it came from. */
  datatype Tagged<T> = Tagged(data: T, src: string)

  function Encode<T>(data: T, src: string): (r: Tagged<T>)
    ensures Decode(r) == data && r.src == src
  {
    Tagged(data, src)
  }

  /** `decode_merge_data`: the `'data'` entry, which an encoded pair always
      has, so the decoding error is not reachable. */
  function Decode<T>(m: Tagged<T>): T {
    m.data
  }

  lemma EncodeDecode<T>(m: Tagged<T>)
    ensures Encode(Decode(m), m.src) == m
  {
  }

  /** What makes a merger raise: `len(None)` (a `TypeError`). */
  datatype Failure = LenOfNone

  // =====================================================================
  // Name and description: bias first, then length

  /** The running choice `merged_name` / `merged_des`.  It starts as
      `encode_merge_data(None, None)`, whose source is `None`. */
  datatype Pick = Pick(data: Option<string>, src: Option<string>)

  const Placeholder := Pick(None, None)

  /** `get_bias_score(src)` for the running choice: no factor has the key
      `None`, so the placeholder has no score. */
  function SourceScore(t: Table, src: Option<string>): Option<real> {
    match src
    case None => None
    case Some(s) => MeanScore(t, s)
  }

  /** One iteration of the loop of `NameMerger.merge` and
      `DescriptionMerger.merge`: the candidate replaces the current choice
      when the choice's source compares below it or the choice's value is
      falsy; on a tie a strictly longer value replaces it, which needs
      `len` of both values. */
  function ScalarStep(t: Table, best: Pick, c: Tagged<Option<string>>): Result<Pick, Failure> {
    StepOn(CompareScores(SourceScore(t, best.src), MeanScore(t, c.src)), best, c)
  }

  /** The same iteration, given the result `cmp` of `compare_bias`. */
  function StepOn(cmp: real, best: Pick, c: Tagged<Option<string>>): Result<Pick, Failure> {
    if cmp < 0.0 || !Truthy(best.data) then Ok(Pick(c.data, Some(c.src)))
    else if cmp == 0.0 then
      if c.data.None? then Err(LenOfNone)
      else if |best.data.value| < |c.data.value| then Ok(Pick(c.data, Some(c.src)))
      else Ok(best)
    else Ok(best)
  }

  /** The choice after a prefix of the batch. */
  function ScalarFold(t: Table, batch: seq<Tagged<Option<string>>>): Result<Pick, Failure>
    decreases |batch|
  {
    if batch == [] then Ok(Placeholder)
    else
      match ScalarFold(t, batch[..|batch| - 1])
      case Err(e) => Err(e)
      case Ok(b) => ScalarStep(t, b, batch[|batch| - 1])
  }

  /** What `NameMerger.merge` / `DescriptionMerger.merge` return: `None` for
      an empty batch, and otherwise, unless a step raised, the value of some
      candidate of the batch. */
  function ScalarMerge(t: Table, batch: seq<Tagged<Option<string>>>): (r: Result<Option<string>, Failure>)
    ensures batch == [] ==> r == Ok(None)
    ensures batch != [] && r.Ok? ==> exists i :: 0 <= i < |batch| && r.value == batch[i].data
  {
    if batch == [] then Ok(None)
    else
      match ScalarFold(t, batch)
      case Err(e) => Err(e)
      case Ok(b) =>
        ScalarFoldFromBatch(t, batch);
        Ok(b.data)
  }

  /** One iteration of the loop of `NameMerger.merge` and
      `DescriptionMerger.merge`: the next choice, or the failure of `len`. */
  method ScalarIteration(t: Table, best: Pick, c: Tagged<Option<string>>) returns (r: Result<Pick, Failure>)
    ensures r == ScalarStep(t, best, c)
  {
    var cmp := CompareScores(SourceScore(t, best.src), MeanScore(t, c.src));
    if cmp < 0.0 || !Truthy(best.data) {
      return Ok(Pick(c.data, Some(c.src)));
    }
    if cmp == 0.0 {
      if c.data.None? {
        return Err(LenOfNone);
      }
      if |best.data.value| < |c.data.value| {
        return Ok(Pick(c.data, Some(c.src)));
      }
    }
    return Ok(best);
  }

  /** `NameMerger.merge` and `DescriptionMerger.merge`, whose code is the same;
      a name is passed as `Some(name)`. */
  method MergeScalar(t: Table, batch: seq<Tagged<Option<string>>>) returns (r: Result<Option<string>, Failure>)
    ensures r == ScalarMerge(t, batch)
  {
    if |batch| == 0 {
      return Ok(None);
    }
    var best := Placeholder;
    var i := 0;
    while i < |batch|
      invariant 0 <= i <= |batch|
      invariant ScalarFold(t, batch[..i]) == Ok(best)
    {
      ScalarFoldSnoc(t, batch, i, best);
      var next := ScalarIteration(t, best, batch[i]);
      if next.Err? {
        ScalarFoldFails(t, batch, i + 1);
        return Err(LenOfNone);
      }
      best := next.value;
      i := i + 1;
    }
    assert batch[..|batch|] == batch;
    r := Ok(best.data);
  }

  /** One more iteration of the loop. */
  lemma ScalarFoldSnoc(t: Table, batch: seq<Tagged<Option<string>>>, i: nat, best: Pick)
    requires i < |batch| && ScalarFold(t, batch[..i]) == Ok(best)
    ensures ScalarFold(t, batch[..i + 1]) == ScalarStep(t, best, batch[i])
  {
    assert batch[..i + 1][..i] == batch[..i];
  }

  /** Once the loop has raised, the rule fails. */
  lemma {:induction false} ScalarFoldFails(t: Table, batch: seq<Tagged<Option<string>>>, i: nat)
    requires i <= |batch| && ScalarFold(t, batch[..i]).Err?
    ensures ScalarFold(t, batch) == Err(LenOfNone)
    decreases |batch| - i
  {
    if i < |batch| {
      assert batch[..i + 1][..i] == batch[..i];
      ScalarFoldFails(t, batch, i + 1);
    } else {
      assert batch[..i] == batch;
      assert ScalarFold(t, batch).error.LenOfNone?;
    }
  }

  // ---------------------------------------------------------------------
  // The order `compare_bias` induces on scores

  /** Score `a` ranks strictly below score `b`: no score is below any score,
      and two scores compare as reals. */
  predicate ScoreBelow(a: Option<real>, b: Option<real>) {
    (a.None? && b.Some?) || (a.Some? && b.Some? && a.value < b.value)
  }

  /** `compare_bias` is negative exactly when the first score ranks below the
      second and zero exactly when the scores are equal. */
  lemma CompareScoresOrder(a: Option<real>, b: Option<real>)
    ensures CompareScores(a, b) < 0.0 <==> ScoreBelow(a, b)
    ensures CompareScores(a, b) == 0.0 <==> a == b
    ensures CompareScores(a, b) > 0.0 <==> ScoreBelow(b, a)
  {
  }

  lemma ScoreBelowTransitive(a: Option<real>, b: Option<real>, c: Option<real>)
    requires ScoreBelow(a, b) && ScoreBelow(b, c)
    ensures ScoreBelow(a, c)
  {
  }

  // ---------------------------------------------------------------------
  // Properties of the scalar rule

  /** The result is the value of some candidate, with that candidate's source. */
  lemma {:induction false} ScalarFoldFromBatch(t: Table, batch: seq<Tagged<Option<string>>>)
    requires batch != [] && ScalarFold(t, batch).Ok?
    ensures exists i :: 0 <= i < |batch| && ScalarFold(t, batch).value == Pick(batch[i].data, Some(batch[i].src))
    decreases |batch|
  {
    var n := |batch| - 1;
    var init := batch[..n];
    if n > 0 {
      var b := ScalarFold(t, init).value;
      ScalarFoldFromBatch(t, init);
      var i :| 0 <= i < |init| && b == Pick(init[i].data, Some(init[i].src));
      assert init[i] == batch[i];
    }
  }

  /** When every candidate has a value (as every name has), the rule cannot
      fail and its choice has a value. */
  lemma {:induction false} ScalarFoldPresent(t: Table, batch: seq<Tagged<Option<string>>>)
    requires forall i :: 0 <= i < |batch| ==> batch[i].data.Some?
    ensures ScalarFold(t, batch).Ok?
    ensures batch != [] ==> ScalarFold(t, batch).value.data.Some?
    decreases |batch|
  {
    if batch != [] {
      ScalarFoldPresent(t, batch[..|batch| - 1]);
    }
  }

  lemma ScalarMergePresent(t: Table, batch: seq<Tagged<Option<string>>>)
    requires batch != [] && forall i :: 0 <= i < |batch| ==> batch[i].data.Some?
    ensures ScalarMerge(t, batch).Ok? && ScalarMerge(t, batch).value.Some?
  {
    ScalarFoldPresent(t, batch);
  }

  /** One step: a current choice with a falsy value is always replaced.
      Against a truthy one, a candidate from a better-scored source replaces
      it; on a tie, a missing candidate value fails, a strictly longer one
      replaces it and any other keeps it; a candidate from a worse-scored
      source is ignored. */
  lemma ScalarStepCases(t: Table, best: Pick, c: Tagged<Option<string>>)
    ensures !Truthy(best.data) ==> ScalarStep(t, best, c) == Ok(Pick(c.data, Some(c.src)))
    ensures Truthy(best.data) ==> var sb, sc := SourceScore(t, best.src), MeanScore(t, c.src);
      && (ScoreBelow(sb, sc) ==> ScalarStep(t, best, c) == Ok(Pick(c.data, Some(c.src))))
      && (sb == sc && c.data.None? ==> ScalarStep(t, best, c) == Err(LenOfNone))
      && (sb == sc && c.data.Some? && |best.data.value| < |c.data.value| ==>
            ScalarStep(t, best, c) == Ok(Pick(c.data, Some(c.src))))
      && (sb == sc && c.data.Some? && |c.data.value| <= |best.data.value| ==> ScalarStep(t, best, c) == Ok(best))
      && (ScoreBelow(sc, sb) ==> ScalarStep(t, best, c) == Ok(best))
  {
    CompareScoresOrder(SourceScore(t, best.src), MeanScore(t, c.src));
  }

  /** The length of a present value; used only where values are truthy. */
  function Len(v: Option<string>): nat {
    if v.Some? then |v.value| else 0
  }

  /** The score of a candidate's source. */
  function CandidateScore(t: Table, c: Tagged<Option<string>>): Option<real> {
    MeanScore(t, c.src)
  }

  /** Candidate `k` has the best score of the batch and, among the candidates
      with that score, the longest value, with every earlier one of that
      score strictly shorter. */
  ghost predicate BestOf(t: Table, batch: seq<Tagged<Option<string>>>, k: int) {
    && 0 <= k < |batch|
    && (forall j :: 0 <= j < |batch| ==> !ScoreBelow(CandidateScore(t, batch[k]), CandidateScore(t, batch[j])))
    && (forall j :: 0 <= j < |batch| && CandidateScore(t, batch[j]) == CandidateScore(t, batch[k]) ==>
          Len(batch[j].data) <= Len(batch[k].data))
    && (forall j :: 0 <= j < k && CandidateScore(t, batch[j]) == CandidateScore(t, batch[k]) ==>
          Len(batch[j].data) < Len(batch[k].data))
  }

  /** With truthy values, the scalar rule picks the first of the longest
      values among the candidates whose source has the best score. */
  lemma {:induction false} ScalarFoldBest(t: Table, batch: seq<Tagged<Option<string>>>) returns (k: nat)
    requires batch != [] && forall i :: 0 <= i < |batch| ==> Truthy(batch[i].data)
    ensures BestOf(t, batch, k)
    ensures ScalarFold(t, batch) == Ok(Pick(batch[k].data, Some(batch[k].src)))
    decreases |batch|
  {
    var n := |batch| - 1;
    if n == 0 {
      k := 0;
    } else {
      var init := batch[..n];
      assert forall i :: 0 <= i < n ==> init[i] == batch[i];
      var k0 := ScalarFoldBest(t, init);
      k := ScalarBestStep(t, batch, k0);
    }
  }

  /** One more candidate: the best so far and the new candidate decide the
      next choice, which is again the best. */
  lemma ScalarBestStep(t: Table, batch: seq<Tagged<Option<string>>>, k0: nat) returns (k: nat)
    requires |batch| >= 2 && forall i :: 0 <= i < |batch| ==> Truthy(batch[i].data)
    requires BestOf(t, batch[..|batch| - 1], k0)
    requires ScalarFold(t, batch[..|batch| - 1]) == Ok(Pick(batch[k0].data, Some(batch[k0].src)))
    ensures BestOf(t, batch, k)
    ensures ScalarFold(t, batch) == Ok(Pick(batch[k].data, Some(batch[k].src)))
  {
    var n := |batch| - 1;
    var best := Pick(batch[k0].data, Some(batch[k0].src));
    var c := batch[n];
    assert ScalarFold(t, batch) == ScalarStep(t, best, c);
    var sb, sc := CandidateScore(t, batch[k0]), CandidateScore(t, c);
    ScalarStepCases(t, best, c);
    TotalScores(sb, sc);
    if ScoreBelow(sb, sc) {
      k := n;
      BestOfBetter(t, batch, k0);
    } else if sb == sc && |batch[k0].data.value| < |c.data.value| {
      k := n;
      BestOfLonger(t, batch, k0);
    } else {
      k := k0;
      BestOfKept(t, batch, k0);
    }
  }

  /** A last candidate whose source scores better than the choice so far is
      the new best. */
  lemma BestOfBetter(t: Table, batch: seq<Tagged<Option<string>>>, k0: nat)
    requires |batch| >= 2 && BestOf(t, batch[..|batch| - 1], k0)
    requires ScoreBelow(CandidateScore(t, batch[k0]), CandidateScore(t, batch[|batch| - 1]))
    ensures BestOf(t, batch, |batch| - 1)
  {
    var n := |batch| - 1;
    var sb, sc := CandidateScore(t, batch[k0]), CandidateScore(t, batch[n]);
    forall j | 0 <= j < |batch|
      ensures !ScoreBelow(sc, CandidateScore(t, batch[j]))
      ensures CandidateScore(t, batch[j]) == sc ==> Len(batch[j].data) <= Len(batch[n].data)
      ensures j < n ==> CandidateScore(t, batch[j]) != sc
    {
      if j < n {
        assert batch[..n][j] == batch[j];
        var sj := CandidateScore(t, batch[j]);
        assert !ScoreBelow(sb, sj);
        TotalScores(sb, sj);
        if ScoreBelow(sc, sj) {
          ScoreBelowTransitive(sb, sc, sj);
        }
      }
    }
  }

  /** A last candidate that ties on score with the choice so far and has a
      strictly longer value is the new best. */
  lemma BestOfLonger(t: Table, batch: seq<Tagged<Option<string>>>, k0: nat)
    requires |batch| >= 2 && BestOf(t, batch[..|batch| - 1], k0)
    requires CandidateScore(t, batch[k0]) == CandidateScore(t, batch[|batch| - 1])
    requires Len(batch[k0].data) < Len(batch[|batch| - 1].data)
    ensures BestOf(t, batch, |batch| - 1)
  {
    var n := |batch| - 1;
    forall j | 0 <= j < n
      ensures batch[j] == batch[..n][j]
    {
    }
  }

  /** Otherwise the choice so far stays the best. */
  lemma BestOfKept(t: Table, batch: seq<Tagged<Option<string>>>, k0: nat)
    requires |batch| >= 2 && BestOf(t, batch[..|batch| - 1], k0)
    requires var sb, sc := CandidateScore(t, batch[k0]), CandidateScore(t, batch[|batch| - 1]);
      ScoreBelow(sc, sb) || (sb == sc && Len(batch[|batch| - 1].data) <= Len(batch[k0].data))
    ensures BestOf(t, batch, k0)
  {
    var n := |batch| - 1;
    forall j | 0 <= j < n
      ensures batch[j] == batch[..n][j]
    {
    }
    var sb, sc := CandidateScore(t, batch[k0]), CandidateScore(t, batch[n]);
    if ScoreBelow(sc, sb) {
      TotalScores(sb, sc);
    }
  }

  lemma TotalScores(a: Option<real>, b: Option<real>)
    ensures ScoreBelow(a, b) || a == b || ScoreBelow(b, a)
  {
  }

  /** The scalar rule under the shipped table: candidates from acme,
      patagonia and paperflies all tie on bias, so with truthy values the
      first of the longest values wins. */
  lemma ScalarMergeShipped(batch: seq<Tagged<Option<string>>>) returns (k: nat)
    requires batch != [] && forall i :: 0 <= i < |batch| ==> Truthy(batch[i].data)
    requires forall i :: 0 <= i < |batch| ==> batch[i].src in ["acme", "patagonia", "paperflies"]
    ensures 0 <= k < |batch| && ScalarMerge(ShippedTable, batch) == Ok(batch[k].data)
    ensures forall j :: 0 <= j < |batch| ==> Len(batch[j].data) <= Len(batch[k].data)
    ensures forall j :: 0 <= j < k ==> Len(batch[j].data) < Len(batch[k].data)
  {
    k := ScalarFoldBest(ShippedTable, batch);
    forall j | 0 <= j < |batch|
      ensures CandidateScore(ShippedTable, batch[j]) == Some(0.9)
    {
      ShippedMean(batch[j].src);
    }
  }

  // =====================================================================
  // Location: per field, the first present value, then a strictly longer string

  /** One entry of `merged_location` meeting a text value: an absent entry
      takes the value; a present one is replaced only by a strictly longer
      string (`max(..., key=len)` keeps its first argument on a tie). */
  function TextStep(cur: Option<string>, v: Option<string>): Option<string> {
    if cur.None? then v
    else if v.Some? && |cur.value| < |v.value| then v
    else cur
  }

  /** One entry meeting a coordinate: a float is not a `str`, so once
      present the entry is never overwritten. */
  function CoordStep(cur: Option<real>, v: Option<real>): Option<real> {
    if cur.None? then v else cur
  }

  /** The inner loop over the six fields of one location. */
  function LocationStep(acc: Location, l: Location): Location {
    Location(TextStep(acc.address, l.address), TextStep(acc.city, l.city), TextStep(acc.country, l.country),
             TextStep(acc.postalCode, l.postalCode), CoordStep(acc.latitude, l.latitude),
             CoordStep(acc.longitude, l.longitude))
  }

  /** Six `None` entries. */
  const NoLocation := Location(None, None, None, None, None, None)

  /** `merged_location` after a prefix of the batch; a missing location is
      skipped. */
  function LocationFold(batch: seq<Tagged<Option<Location>>>): Location
    decreases |batch|
  {
    if batch == [] then NoLocation
    else
      var acc := LocationFold(batch[..|batch| - 1]);
      match batch[|batch| - 1].data
      case None => acc
      case Some(l) => LocationStep(acc, l)
  }

  /** What `LocationMerger.merge` returns: `None` for an empty batch, and
      otherwise a location built anew, which re-applies the empty-string
      validator, so no text field holds `""`. */
  function LocationMerge(batch: seq<Tagged<Option<Location>>>): (r: Option<Location>)
    ensures r.None? <==> batch == []
    ensures r.Some? ==> WellFormedLocation(r.value)
  {
    if batch == [] then None else Some(Revalidate(LocationFold(batch)))
  }

  /** `LocationMerger.merge`.  The bias table plays no part. */
  method MergeLocation(batch: seq<Tagged<Option<Location>>>) returns (r: Option<Location>)
    ensures r == LocationMerge(batch)
  {
    if |batch| == 0 {
      return None;
    }
    var merged := NoLocation;
    var i := 0;
    while i < |batch|
      invariant 0 <= i <= |batch|
      invariant LocationFold(batch[..i]) == merged
    {
      assert batch[..i + 1][..i] == batch[..i];
      var loc := Decode(batch[i]);
      if loc.None? {
        i := i + 1;
        continue;
      }
      var l := loc.value;
      merged := merged.(address := TextStep(merged.address, l.address));
      merged := merged.(city := TextStep(merged.city, l.city));
      merged := merged.(country := TextStep(merged.country, l.country));
      merged := merged.(postalCode := TextStep(merged.postalCode, l.postalCode));
      merged := merged.(latitude := CoordStep(merged.latitude, l.latitude));
      merged := merged.(longitude := CoordStep(merged.longitude, l.longitude));
      i := i + 1;
    }
    assert batch[..|batch|] == batch;
    r := Some(NewLocation(merged.address, merged.city, merged.country, merged.postalCode,
                          Coordinate(merged.latitude), Coordinate(merged.longitude)));
  }

  // ---------------------------------------------------------------------
  // Properties of the location rule

  /** The values one field takes across the batch, a missing location
      giving `None`. */
  function Project<U>(batch: seq<Tagged<Option<Location>>>, f: Location -> Option<U>): seq<Option<U>>
    decreases |batch|
  {
    if batch == [] then []
    else
      var last := batch[|batch| - 1].data;
      Project(batch[..|batch| - 1], f) + [if last.Some? then f(last.value) else None]
  }

  function AddressOf(l: Location): Option<string> { l.address }
  function CityOf(l: Location): Option<string> { l.city }
  function CountryOf(l: Location): Option<string> { l.country }
  function PostalCodeOf(l: Location): Option<string> { l.postalCode }
  function LatitudeOf(l: Location): Option<real> { l.latitude }
  function LongitudeOf(l: Location): Option<real> { l.longitude }

  function TextFold(vs: seq<Option<string>>): Option<string>
    decreases |vs|
  {
    if vs == [] then None else TextStep(TextFold(vs[..|vs| - 1]), vs[|vs| - 1])
  }

  function CoordFold(vs: seq<Option<real>>): Option<real>
    decreases |vs|
  {
    if vs == [] then None else CoordStep(CoordFold(vs[..|vs| - 1]), vs[|vs| - 1])
  }

  /** The fields are merged independently of one another. */
  lemma {:induction false} LocationFoldFields(batch: seq<Tagged<Option<Location>>>)
    ensures LocationFold(batch).address == TextFold(Project(batch, AddressOf))
    ensures LocationFold(batch).city == TextFold(Project(batch, CityOf))
    ensures LocationFold(batch).country == TextFold(Project(batch, CountryOf))
    ensures LocationFold(batch).postalCode == TextFold(Project(batch, PostalCodeOf))
    ensures LocationFold(batch).latitude == CoordFold(Project(batch, LatitudeOf))
    ensures LocationFold(batch).longitude == CoordFold(Project(batch, LongitudeOf))
    decreases |batch|
  {
    if batch != [] {
      var init := batch[..|batch| - 1];
      LocationFoldFields(init);
      ProjectLast(batch, AddressOf);
      ProjectLast(batch, CityOf);
      ProjectLast(batch, CountryOf);
      ProjectLast(batch, PostalCodeOf);
      ProjectLast(batch, LatitudeOf);
      ProjectLast(batch, LongitudeOf);
    }
  }

  lemma ProjectLast<U>(batch: seq<Tagged<Option<Location>>>, f: Location -> Option<U>)
    requires batch != []
    ensures var n := |batch| - 1; var last := batch[n].data;
      && |Project(batch, f)| == |batch|
      && Project(batch, f)[..n] == Project(batch[..n], f)
      && Project(batch, f)[n] == if last.Some? then f(last.value) else None
  {
    ProjectLength(batch[..|batch| - 1], f);
  }

  lemma {:induction false} ProjectLength<U>(batch: seq<Tagged<Option<Location>>>, f: Location -> Option<U>)
    ensures |Project(batch, f)| == |batch|
    decreases |batch|
  {
    if batch != [] {
      ProjectLength(batch[..|batch| - 1], f);
    }
  }

  /** `vs[k]` is present, no entry is longer, and every earlier entry is
      shorter. */
  ghost predicate FirstLongestAt(vs: seq<Option<string>>, k: nat) {
    && k < |vs| && vs[k].Some?
    && (forall j :: 0 <= j < |vs| && vs[j].Some? ==> |vs[j].value| <= |vs[k].value|)
    && (forall j :: 0 <= j < k && vs[j].Some? ==> |vs[j].value| < |vs[k].value|)
  }

  /** A text field merges to the first of its longest present values, or to
      `None` when no location has it. */
  lemma {:induction false} TextFoldFirstLongest(vs: seq<Option<string>>)
    ensures TextFold(vs).None? <==> forall i :: 0 <= i < |vs| ==> vs[i].None?
    ensures TextFold(vs).Some? ==> exists k: nat :: FirstLongestAt(vs, k) && vs[k] == TextFold(vs)
    decreases |vs|
  {
    if vs != [] {
      var n := |vs| - 1;
      var init := vs[..n];
      TextFoldFirstLongest(init);
      var cur := TextFold(init);
      assert TextFold(vs) == TextStep(cur, vs[n]);
      if cur.Some? {
        var k: nat :| FirstLongestAt(init, k) && init[k] == cur;
        var k' := FirstLongestSnoc(vs, k);
        assert FirstLongestAt(vs, k') && vs[k'] == TextFold(vs);
        assert vs[k'].Some?;
      } else {
        assert forall i :: 0 <= i < n ==> vs[i].None? by {
          forall i | 0 <= i < n ensures vs[i].None? { assert init[i] == vs[i]; }
        }
        if vs[n].Some? {
          FirstLongestLast(vs);
          assert FirstLongestAt(vs, n) && vs[n] == TextFold(vs);
        }
      }
    }
  }

  /** Extending the entries by one keeps the first longest, unless the new
      entry is strictly longer. */
  lemma FirstLongestSnoc(vs: seq<Option<string>>, k: nat) returns (k': nat)
    requires vs != [] && FirstLongestAt(vs[..|vs| - 1], k)
    ensures FirstLongestAt(vs, k')
    ensures vs[k'] == TextStep(vs[k], vs[|vs| - 1])
  {
    var n := |vs| - 1;
    var init := vs[..n];
    assert vs[k] == init[k];
    if vs[n].Some? && |vs[k].value| < |vs[n].value| {
      k' := n;
      forall j | 0 <= j < |vs| && vs[j].Some? ensures |vs[j].value| <= |vs[n].value| {
        if j < n { assert init[j] == vs[j]; }
      }
    } else {
      k' := k;
      forall j | 0 <= j < |vs| && vs[j].Some? ensures |vs[j].value| <= |vs[k].value| {
        if j < n { assert init[j] == vs[j]; }
      }
      forall j | 0 <= j < k && vs[j].Some? ensures |vs[j].value| < |vs[k].value| {
        assert init[j] == vs[j];
      }
    }
  }

  /** The last entry is the first longest when it is the only present one. */
  lemma FirstLongestLast(vs: seq<Option<string>>)
    requires vs != [] && vs[|vs| - 1].Some?
    requires forall i :: 0 <= i < |vs| - 1 ==> vs[i].None?
    ensures FirstLongestAt(vs, |vs| - 1)
  {
  }

  /** A coordinate merges to its first present value. */
  lemma {:induction false} CoordFoldFirst(vs: seq<Option<real>>)
    ensures CoordFold(vs).None? <==> forall i :: 0 <= i < |vs| ==> vs[i].None?
    ensures CoordFold(vs).Some? ==> exists k :: (0 <= k < |vs| && vs[k] == CoordFold(vs)
      && forall j :: 0 <= j < k ==> vs[j].None?)
    decreases |vs|
  {
    if vs != [] {
      var n := |vs| - 1;
      var init := vs[..n];
      CoordFoldFirst(init);
      assert forall i :: 0 <= i < n ==> init[i] == vs[i];
      if CoordFold(init).Some? {
        var k :| 0 <= k < n && init[k] == CoordFold(init) && forall j :: 0 <= j < k ==> init[j].None?;
        assert vs[k] == CoordFold(vs);
      } else if vs[n].Some? {
        assert vs[n] == CoordFold(vs);
      }
    }
  }

  /** The merged location, field by field: each text field is the first of
      the longest values the batch gives it, passed through the validator,
      and each coordinate is the first value the batch gives it.  No score
      enters. */
  lemma LocationMergeSpec(batch: seq<Tagged<Option<Location>>>)
    ensures batch != [] ==>
      var m := LocationMerge(batch).value;
      && m.address == EmptyStringToNone(TextFold(Project(batch, AddressOf)))
      && m.city == EmptyStringToNone(TextFold(Project(batch, CityOf)))
      && m.country == EmptyStringToNone(TextFold(Project(batch, CountryOf)))
      && m.postalCode == EmptyStringToNone(TextFold(Project(batch, PostalCodeOf)))
      && m.latitude == CoordFold(Project(batch, LatitudeOf))
      && m.longitude == CoordFold(Project(batch, LongitudeOf))
  {
    LocationFoldFields(batch);
    var l := LocationFold(batch);
    assert BlankToNone(Coordinate(l.latitude)) == l.latitude;
    assert BlankToNone(Coordinate(l.longitude)) == l.longitude;
  }

  // =====================================================================
  // Lists gathered across the batch

  /** What each pair of the batch contributes, in batch order: a missing
      value contributes nothing, a present one what `f` takes from it. */
  function Lists<U, V>(batch: seq<Tagged<Option<U>>>, f: U -> seq<V>): seq<seq<V>>
    decreases |batch|
  {
    if batch == [] then []
    else
      var last := batch[|batch| - 1].data;
      Lists(batch[..|batch| - 1], f) + [if last.Some? then f(last.value) else []]
  }

  lemma {:induction false} ListsAt<U, V>(batch: seq<Tagged<Option<U>>>, f: U -> seq<V>)
    ensures |Lists(batch, f)| == |batch|
    ensures forall i :: 0 <= i < |batch| ==>
      Lists(batch, f)[i] == if batch[i].data.Some? then f(batch[i].data.value) else []
    decreases |batch|
  {
    if batch != [] {
      var n := |batch| - 1;
      ListsAt(batch[..n], f);
      assert forall i :: 0 <= i < n ==> batch[..n][i] == batch[i];
    }
  }

  lemma ListsLast<U, V>(batch: seq<Tagged<Option<U>>>, i: nat, f: U -> seq<V>)
    requires i < |batch|
    ensures Lists(batch[..i + 1], f) == Lists(batch[..i], f) + [if batch[i].data.Some? then f(batch[i].data.value) else []]
  {
    assert batch[..i + 1][..i] == batch[..i];
  }

  /** Each element of `xs` appended when it is not already present. */
  method AppendAbsent(acc: seq<string>, xs: seq<string>) returns (r: seq<string>)
    ensures r == AppendNew(acc, xs)
  {
    r := acc;
    var j := 0;
    while j < |xs|
      invariant 0 <= j <= |xs|
      invariant r == AppendNew(acc, xs[..j])
    {
      assert xs[..j + 1][..j] == xs[..j];
      if xs[j] !in r {
        r := r + [xs[j]];
      }
      j := j + 1;
    }
    assert xs[..|xs|] == xs;
  }

  /** One loop step of a dedup merger: the list of the next pair joins the
      union. */
  lemma DedupStep(prefix: seq<seq<string>>, xs: seq<string>)
    ensures AppendNew(Dedup(Flatten(prefix)), xs) == Dedup(Flatten(prefix + [xs]))
  {
    AppendNewConcat([], Flatten(prefix), xs);
    FlattenAppend(prefix, xs);
  }

  /** One loop step of a dedup merger on a batch: a record without the field
      leaves the union as it is, and otherwise its list joins the union. */
  lemma UnionStep<U>(batch: seq<Tagged<Option<U>>>, i: nat, f: U -> seq<string>, acc: seq<string>)
    requires i < |batch| && acc == Dedup(Flatten(Lists(batch[..i], f)))
    ensures batch[i].data.None? ==> acc == Dedup(Flatten(Lists(batch[..i + 1], f)))
    ensures batch[i].data.Some? ==> AppendNew(acc, f(batch[i].data.value)) == Dedup(Flatten(Lists(batch[..i + 1], f)))
  {
    ListsLast(batch, i, f);
    DedupStep(Lists(batch[..i], f), if batch[i].data.Some? then f(batch[i].data.value) else []);
  }

  /** A dedup merger's result: duplicate-free, holding exactly the elements of
      the lists, each where it first occurs. */
  lemma DedupFlattenSpec(xss: seq<seq<string>>)
    ensures NoDup(Dedup(Flatten(xss)))
    ensures forall x :: x in Dedup(Flatten(xss)) <==> exists i :: 0 <= i < |xss| && x in xss[i]
    ensures var d, f := Dedup(Flatten(xss)), Flatten(xss);
      forall i, j, q :: 0 <= i < j < |d| && 0 <= q < |f| && f[q] == d[j] ==> d[i] in f[..q]
  {
    DedupFirstSeen(Flatten(xss));
    FlattenMember(xss);
  }

  // =====================================================================
  // Amenities: an ordered union per list

  /** A falsy list contributes nothing. */
  function GeneralOf(a: Amenities): seq<string> {
    if NonEmpty(a.general) then a.general.value else []
  }

  function RoomOf(a: Amenities): seq<string> {
    if NonEmpty(a.room) then a.room.value else []
  }

  /** What `AmenitiesMerger.merge` returns: `None` for an empty batch, and
      otherwise both lists present, each the distinct amenities in order of
      first appearance. */
  function AmenitiesMerge(batch: seq<Tagged<Option<Amenities>>>): (r: Option<Amenities>)
    ensures r.None? <==> batch == []
    ensures r.Some? ==> r.value.general.Some? && r.value.room.Some? && NoDup(r.value.general.value) && NoDup(r.value.room.value)
  {
    if batch == [] then None
    else
      DedupFirstSeen(Flatten(Lists(batch, GeneralOf)));
      DedupFirstSeen(Flatten(Lists(batch, RoomOf)));
      Some(Amenities(Some(Dedup(Flatten(Lists(batch, GeneralOf)))), Some(Dedup(Flatten(Lists(batch, RoomOf))))))
  }

  /** `AmenitiesMerger.merge`. */
  method MergeAmenities(batch: seq<Tagged<Option<Amenities>>>) returns (r: Option<Amenities>)
    ensures r == AmenitiesMerge(batch)
  {
    if |batch| == 0 {
      return None;
    }
    var general: seq<string> := [];
    var room: seq<string> := [];
    var i := 0;
    while i < |batch|
      invariant 0 <= i <= |batch|
      invariant general == Dedup(Flatten(Lists(batch[..i], GeneralOf)))
      invariant room == Dedup(Flatten(Lists(batch[..i], RoomOf)))
    {
      UnionStep(batch, i, GeneralOf, general);
      UnionStep(batch, i, RoomOf, room);
      general, room := AmenitiesIteration(batch[i], general, room);
      i := i + 1;
    }
    assert batch[..|batch|] == batch;
    r := Some(Amenities(Some(general), Some(room)));
  }

  /** One pass of the loop of `AmenitiesMerger.merge`: a record with
      amenities adds its non-empty lists to the two unions. */
  method AmenitiesIteration(t: Tagged<Option<Amenities>>, general0: seq<string>, room0: seq<string>)
    returns (general: seq<string>, room: seq<string>)
    ensures t.data.None? ==> general == general0 && room == room0
    ensures t.data.Some? ==> general == AppendNew(general0, GeneralOf(t.data.value))
    ensures t.data.Some? ==> room == AppendNew(room0, RoomOf(t.data.value))
  {
    general, room := general0, room0;
    var amenities := Decode(t);
    if amenities.None? {
      return;
    }
    var a := amenities.value;
    if NonEmpty(a.general) {
      general := AppendAbsent(general, a.general.value);
    }
    if NonEmpty(a.room) {
      room := AppendAbsent(room, a.room.value);
    }
  }

  /** On a non-empty batch each merged list holds exactly the amenities of the
      present, non-empty input lists (`[]`, not `None`, when nothing is found),
      each where it first occurs in batch order. */
  lemma AmenitiesMergeSpec(batch: seq<Tagged<Option<Amenities>>>)
    ensures batch != [] ==>
      var m := AmenitiesMerge(batch).value;
      && (forall x :: x in m.general.value <==>
            exists i :: 0 <= i < |batch| && batch[i].data.Some? && x in GeneralOf(batch[i].data.value))
      && (forall x :: x in m.room.value <==>
            exists i :: 0 <= i < |batch| && batch[i].data.Some? && x in RoomOf(batch[i].data.value))
    ensures batch != [] ==>
      var d, f := AmenitiesMerge(batch).value.general.value, Flatten(Lists(batch, GeneralOf));
      forall i, j, q :: 0 <= i < j < |d| && 0 <= q < |f| && f[q] == d[j] ==> d[i] in f[..q]
    ensures batch != [] ==>
      var d, f := AmenitiesMerge(batch).value.room.value, Flatten(Lists(batch, RoomOf));
      forall i, j, q :: 0 <= i < j < |d| && 0 <= q < |f| && f[q] == d[j] ==> d[i] in f[..q]
  {
    UnionOfLists(batch, GeneralOf);
    UnionOfLists(batch, RoomOf);
    DedupFlattenSpec(Lists(batch, GeneralOf));
    DedupFlattenSpec(Lists(batch, RoomOf));
  }

  /** The ordered union of one list field over a batch is duplicate-free and
      holds exactly the elements of the present records' lists. */
  lemma UnionOfLists<U>(batch: seq<Tagged<Option<U>>>, f: U -> seq<string>)
    ensures NoDup(Dedup(Flatten(Lists(batch, f))))
    ensures forall x :: x in Dedup(Flatten(Lists(batch, f))) <==>
      exists i :: 0 <= i < |batch| && batch[i].data.Some? && x in f(batch[i].data.value)
  {
    var xss := Lists(batch, f);
    DedupFlattenSpec(xss);
    ListsAt(batch, f);
    forall x | x in Dedup(Flatten(xss))
      ensures exists i :: 0 <= i < |batch| && batch[i].data.Some? && x in f(batch[i].data.value)
    {
      var i :| 0 <= i < |xss| && x in xss[i];
    }
    forall x, i | 0 <= i < |batch| && batch[i].data.Some? && x in f(batch[i].data.value)
      ensures x in Dedup(Flatten(xss))
    {
      assert x in xss[i];
    }
  }

  // =====================================================================
  // Booking conditions: an ordered union without falsy conditions

  /** The conditions without the empty ones. */
  function DropEmpty(xs: seq<string>): (r: seq<string>)
    ensures forall x :: x in r <==> x in xs && x != ""
  {
    if xs == [] then [] else (if xs[0] == "" then [] else [xs[0]]) + DropEmpty(xs[1..])
  }

  function ConditionsOf(c: seq<string>): seq<string> {
    DropEmpty(c)
  }

  /** What `BookingConditionsMerger.merge` returns: `None` for an empty batch,
      and otherwise the distinct conditions in order of first appearance. */
  function BookingConditionsMerge(batch: seq<Tagged<Option<seq<string>>>>): (r: Option<seq<string>>)
    ensures r.None? <==> batch == []
    ensures r.Some? ==> NoDup(r.value)
  {
    if batch == [] then None
    else
      DedupFirstSeen(Flatten(Lists(batch, ConditionsOf)));
      Some(Dedup(Flatten(Lists(batch, ConditionsOf))))
  }

  /** `BookingConditionsMerger.merge`. */
  method MergeBookingConditions(batch: seq<Tagged<Option<seq<string>>>>) returns (r: Option<seq<string>>)
    ensures r == BookingConditionsMerge(batch)
  {
    if |batch| == 0 {
      return None;
    }
    var merged: seq<string> := [];
    var i := 0;
    while i < |batch|
      invariant 0 <= i <= |batch|
      invariant merged == Dedup(Flatten(Lists(batch[..i], ConditionsOf)))
    {
      ListsLast(batch, i, ConditionsOf);
      var conditions := Decode(batch[i]);
      if !NonEmpty(conditions) {
        assert conditions.Some? ==> DropEmpty(conditions.value) == [];
        DedupStep(Lists(batch[..i], ConditionsOf), []);
        i := i + 1;
        continue;
      }
      DedupStep(Lists(batch[..i], ConditionsOf), DropEmpty(conditions.value));
      merged := AppendAbsent(merged, DropEmpty(conditions.value));
      i := i + 1;
    }
    assert batch[..|batch|] == batch;
    r := Some(merged);
  }

  /** On a non-empty batch the merged conditions are free of `""`, hold
      exactly the non-empty conditions of the input, and keep each where it
      first occurs in batch order. */
  lemma BookingConditionsMergeSpec(batch: seq<Tagged<Option<seq<string>>>>)
    ensures batch != [] ==>
      var m := BookingConditionsMerge(batch).value;
      && "" !in m
      && forall x :: x in m <==> x != "" && exists i :: 0 <= i < |batch| && batch[i].data.Some? && x in batch[i].data.value
    ensures batch != [] ==>
      var d, f := BookingConditionsMerge(batch).value, Flatten(Lists(batch, ConditionsOf));
      forall i, j, q :: 0 <= i < j < |d| && 0 <= q < |f| && f[q] == d[j] ==> d[i] in f[..q]
  {
    DedupFlattenSpec(Lists(batch, ConditionsOf));
    ListsAt(batch, ConditionsOf);
  }

  // =====================================================================
  // Images: one entry per link, keeping the longer description

  /** The dictionary of one image field: its links in insertion order and
      the entry of each link. */
  datatype LinkTable = LinkTable(links: seq<string>, entries: map<string, Image>)

  const EmptyTable := LinkTable([], map[])

  /** The loop body for one image: a new link is inserted with its image; a
      falsy description is ignored; otherwise the kept description becomes
      the longer of the two, keeping the old one on a tie, which needs the
      length of the kept one. */
  function ImageStep(tbl: LinkTable, img: Image): Result<LinkTable, Failure> {
    if img.link !in tbl.entries then Ok(LinkTable(tbl.links + [img.link], tbl.entries[img.link := img]))
    else if !Truthy(img.description) then Ok(tbl)
    else
      var kept := tbl.entries[img.link];
      if kept.description.None? then Err(LenOfNone)
      else if |kept.description.value| < |img.description.value| then
        Ok(tbl.(entries := tbl.entries[img.link := kept.(description := img.description)]))
      else Ok(tbl)
  }

  /** The dictionary of one field after a prefix of that field's images. */
  function ImageFold(xs: seq<Image>): Result<LinkTable, Failure>
    decreases |xs|
  {
    if xs == [] then Ok(EmptyTable)
    else
      match ImageFold(xs[..|xs| - 1])
      case Err(e) => Err(e)
      case Ok(tbl) => ImageStep(tbl, xs[|xs| - 1])
  }

  /** The stored images, in link order. */
  function Entries(tbl: LinkTable): seq<Image> {
    ValuesIn(tbl.links, tbl.entries)
  }

  /** A falsy list contributes nothing. */
  function RoomsOf(h: HotelImages): seq<Image> {
    if NonEmpty(h.rooms) then h.rooms.value else []
  }

  function SiteOf(h: HotelImages): seq<Image> {
    if NonEmpty(h.site) then h.site.value else []
  }

  function AmenityImagesOf(h: HotelImages): seq<Image> {
    if NonEmpty(h.amenities) then h.amenities.value else []
  }

  /** What `ImagesMerger.merge` returns: `None` for an empty batch; the three
      fields are merged independently, the merge fails with the len-of-`None`
      error when any of them does, and otherwise all three are present. */
  function ImagesMerge(batch: seq<Tagged<Option<HotelImages>>>): (r: Result<Option<HotelImages>, Failure>)
    ensures batch == [] ==> r == Ok(None)
    ensures r.Err? ==> r.error == LenOfNone
    ensures batch != [] && r.Ok? ==>
      r.value.Some? && r.value.value.rooms.Some? && r.value.value.site.Some? && r.value.value.amenities.Some?
  {
    if batch == [] then Ok(None)
    else
      var rooms := ImageFold(Flatten(Lists(batch, RoomsOf)));
      var site := ImageFold(Flatten(Lists(batch, SiteOf)));
      var amenities := ImageFold(Flatten(Lists(batch, AmenityImagesOf)));
      if rooms.Err? || site.Err? || amenities.Err? then Err(LenOfNone)
      else Ok(Some(HotelImages(Some(Entries(rooms.value)), Some(Entries(site.value)), Some(Entries(amenities.value)))))
  }

  /** The images of one field after one more record: a record without
      images adds none, and otherwise adds that field's images. */
  lemma FieldImagesStep(batch: seq<Tagged<Option<HotelImages>>>, i: nat, f: HotelImages -> seq<Image>)
    requires i < |batch|
    ensures batch[i].data.None? ==> Flatten(Lists(batch[..i + 1], f)) == Flatten(Lists(batch[..i], f))
    ensures batch[i].data.Some? ==> Flatten(Lists(batch[..i + 1], f)) == Flatten(Lists(batch[..i], f)) + f(batch[i].data.value)
  {
    ListsLast(batch, i, f);
    FlattenAppend(Lists(batch[..i], f), if batch[i].data.Some? then f(batch[i].data.value) else []);
    if batch[i].data.None? {
      assert Flatten(Lists(batch[..i], f)) + [] == Flatten(Lists(batch[..i], f));
    }
  }

  /** A failure stays a failure as more images are seen. */
  lemma {:induction false} ImageFoldFails(xs: seq<Image>, ys: seq<Image>)
    requires ImageFold(xs).Err?
    ensures ImageFold(xs + ys).Err?
    decreases |ys|
  {
    if ys == [] {
      assert xs + ys == xs;
    } else {
      var n := |ys| - 1;
      ImageFoldFails(xs, ys[..n]);
      assert (xs + ys)[..|xs + ys| - 1] == xs + ys[..n];
    }
  }

  lemma {:induction false} ListsConcat<U, V>(a: seq<Tagged<Option<U>>>, b: seq<Tagged<Option<U>>>, f: U -> seq<V>)
    ensures Lists(a + b, f) == Lists(a, f) + Lists(b, f)
    decreases |b|
  {
    if b != [] {
      var n := |b| - 1;
      ListsConcat(a, b[..n], f);
      assert (a + b)[..|a + b| - 1] == a + b[..n];
    } else {
      assert a + b == a;
    }
  }

  lemma {:induction false} FlattenConcat<T>(xss: seq<seq<T>>, yss: seq<seq<T>>)
    ensures Flatten(xss + yss) == Flatten(xss) + Flatten(yss)
    decreases |yss|
  {
    if yss != [] {
      var n := |yss| - 1;
      FlattenConcat(xss, yss[..n]);
      assert (xss + yss)[..|xss + yss| - 1] == xss + yss[..n];
    } else {
      assert xss + yss == xss;
    }
  }

  lemma FlattenListsPrefix<U, V>(batch: seq<Tagged<Option<U>>>, i: nat, f: U -> seq<V>) returns (rest: seq<V>)
    requires i <= |batch|
    ensures Flatten(Lists(batch, f)) == Flatten(Lists(batch[..i], f)) + rest
  {
    assert batch == batch[..i] + batch[i..];
    ListsConcat(batch[..i], batch[i..], f);
    FlattenConcat(Lists(batch[..i], f), Lists(batch[i..], f));
    rest := Flatten(Lists(batch[i..], f));
  }

  /** The loop over the images of one field of one record. */
  method AddImages(tbl0: LinkTable, ghost before: seq<Image>, xs: seq<Image>) returns (r: Result<LinkTable, Failure>)
    requires ImageFold(before) == Ok(tbl0)
    ensures r == ImageFold(before + xs)
  {
    var tbl := tbl0;
    var j := 0;
    assert before + xs[..0] == before;
    while j < |xs|
      invariant 0 <= j <= |xs|
      invariant ImageFold(before + xs[..j]) == Ok(tbl)
    {
      var img := xs[j];
      assert (before + xs[..j + 1])[..|before + xs[..j + 1]| - 1] == before + xs[..j];
      assert (before + xs[..j + 1])[|before + xs[..j + 1]| - 1] == img;
      if img.link !in tbl.entries {
        tbl := LinkTable(tbl.links + [img.link], tbl.entries[img.link := img]);
        j := j + 1;
        continue;
      }
      if !Truthy(img.description) {
        j := j + 1;
        continue;
      }
      var kept := tbl.entries[img.link];
      if kept.description.None? {
        assert ImageFold(before + xs[..j + 1]) == ImageStep(tbl, img);
        ImageFoldRest(before, xs, j);
        return Err(LenOfNone);
      }
      if |kept.description.value| < |img.description.value| {
        tbl := tbl.(entries := tbl.entries[img.link := kept.(description := img.description)]);
      }
      j := j + 1;
    }
    assert xs[..|xs|] == xs;
    r := Ok(tbl);
  }

  lemma ImageFoldRest(before: seq<Image>, xs: seq<Image>, j: nat)
    requires j < |xs| && ImageFold(before + xs[..j + 1]).Err?
    ensures ImageFold(before + xs) == Err(LenOfNone)
  {
    SplitAfter(before, xs, j);
    ImageFoldFails(before + xs[..j + 1], xs[j + 1..]);
    OnlyLenOfNone(ImageFold(before + xs));
  }

  lemma SplitAfter<T>(before: seq<T>, xs: seq<T>, j: nat)
    requires j < |xs|
    ensures (before + xs[..j + 1]) + xs[j + 1..] == before + xs
  {
    assert xs[..j + 1] + xs[j + 1..] == xs;
  }

  /** `len(None)` is the only way an image merge fails. */
  lemma OnlyLenOfNone<T>(r: Result<T, Failure>)
    requires r.Err?
    ensures r == Err(LenOfNone)
  {
    assert r.error.LenOfNone?;
  }

  /** One field of one record: a falsy list is skipped. */
  method MergeImageField(tbl: LinkTable, ghost before: seq<Image>, v: Option<seq<Image>>) returns (r: Result<LinkTable, Failure>)
    requires ImageFold(before) == Ok(tbl)
    ensures r == ImageFold(before + (if NonEmpty(v) then v.value else []))
  {
    if !NonEmpty(v) {
      assert before + [] == before;
      return Ok(tbl);
    }
    r := AddImages(tbl, before, v.value);
  }

  /** `ImagesMerger.merge`. */
  method MergeImages(batch: seq<Tagged<Option<HotelImages>>>) returns (r: Result<Option<HotelImages>, Failure>)
    ensures r == ImagesMerge(batch)
  {
    if |batch| == 0 {
      return Ok(None);
    }
    var rooms, site, amenities := EmptyTable, EmptyTable, EmptyTable;
    var i := 0;
    while i < |batch|
      invariant 0 <= i <= |batch|
      invariant ImageFold(Flatten(Lists(batch[..i], RoomsOf))) == Ok(rooms)
      invariant ImageFold(Flatten(Lists(batch[..i], SiteOf))) == Ok(site)
      invariant ImageFold(Flatten(Lists(batch[..i], AmenityImagesOf))) == Ok(amenities)
    {
      FieldImagesStep(batch, i, RoomsOf);
      FieldImagesStep(batch, i, SiteOf);
      FieldImagesStep(batch, i, AmenityImagesOf);
      var images := Decode(batch[i]);
      if images.None? {
        i := i + 1;
        continue;
      }
      var im := images.value;
      var res := MergeImageField(rooms, Flatten(Lists(batch[..i], RoomsOf)), im.rooms);
      if res.Err? {
        ImagesFieldFails(batch, i + 1, RoomsOf);
        return Err(LenOfNone);
      }
      rooms := res.value;
      res := MergeImageField(site, Flatten(Lists(batch[..i], SiteOf)), im.site);
      if res.Err? {
        ImagesFieldFails(batch, i + 1, SiteOf);
        return Err(LenOfNone);
      }
      site := res.value;
      res := MergeImageField(amenities, Flatten(Lists(batch[..i], AmenityImagesOf)), im.amenities);
      if res.Err? {
        ImagesFieldFails(batch, i + 1, AmenityImagesOf);
        return Err(LenOfNone);
      }
      amenities := res.value;
      i := i + 1;
    }
    assert batch[..|batch|] == batch;
    r := Ok(Some(HotelImages(Some(Entries(rooms)), Some(Entries(site)), Some(Entries(amenities)))));
  }

  lemma ImagesFieldFails(batch: seq<Tagged<Option<HotelImages>>>, i: nat, f: HotelImages -> seq<Image>)
    requires i <= |batch| && ImageFold(Flatten(Lists(batch[..i], f))).Err?
    ensures ImageFold(Flatten(Lists(batch, f))).Err?
  {
    var rest := FlattenListsPrefix(batch, i, f);
    ImageFoldFails(Flatten(Lists(batch[..i], f)), rest);
  }

  // ---------------------------------------------------------------------
  // What the image dictionary holds

  function LinksOf(xs: seq<Image>): (r: seq<string>)
    ensures |r| == |xs| && forall i :: 0 <= i < |xs| ==> r[i] == xs[i].link
  {
    seq(|xs|, i requires 0 <= i < |xs| => xs[i].link)
  }

  /** `xs[i]` is the first image with its link. */
  ghost predicate FirstAt(xs: seq<Image>, i: int) {
    0 <= i < |xs| && forall k :: 0 <= k < i ==> xs[k].link != xs[i].link
  }

  /** The situation in which `len(None)` is reached: the first image of some
      link carries no description and a later image of that link a truthy one. */
  ghost predicate Conflict(xs: seq<Image>) {
    exists i, j :: 0 <= i < j < |xs| && FirstAt(xs, i) && xs[j].link == xs[i].link
      && xs[i].description.None? && Truthy(xs[j].description)
  }

  /** The dictionary after `xs`: its links are those of `xs`, first seen first;
      each entry is keyed by its own link and carries the description of some
      image of that link that is at least as long as every truthy one and
      strictly longer than every earlier truthy one, and it is missing exactly
      when the first image's description is missing. */
  ghost predicate Summarises(xs: seq<Image>, tbl: LinkTable) {
    LinkOrder(xs, tbl) && Covered(xs, tbl) && SelfKeyed(tbl)
    && Provenance(xs, tbl) && Longest(xs, tbl) && MissingIffFirst(xs, tbl)
  }

  ghost predicate LinkOrder(xs: seq<Image>, tbl: LinkTable) {
    tbl.links == Dedup(LinksOf(xs)) && forall l :: l in tbl.entries <==> l in tbl.links
  }

  ghost predicate Covered(xs: seq<Image>, tbl: LinkTable) {
    forall i :: 0 <= i < |xs| ==> xs[i].link in tbl.entries
  }

  ghost predicate SelfKeyed(tbl: LinkTable) {
    forall l :: l in tbl.entries ==> tbl.entries[l].link == l
  }

  /** Image `i` has link `l` and description `d`, and every earlier truthy
      description of `l` is strictly shorter than `d`: `max(kept, new,
      key=len)` keeps the kept description on a tie. */
  ghost predicate EarliestAt(xs: seq<Image>, i: int, l: string, d: Option<string>) {
    && 0 <= i < |xs| && xs[i].link == l && xs[i].description == d
    && forall j :: 0 <= j < i && xs[j].link == l && Truthy(xs[j].description) ==>
         d.Some? && |xs[j].description.value| < |d.value|
  }

  ghost predicate Provenance(xs: seq<Image>, tbl: LinkTable) {
    forall l :: l in tbl.entries ==> exists i :: EarliestAt(xs, i, l, tbl.entries[l].description)
  }

  ghost predicate Longest(xs: seq<Image>, tbl: LinkTable) {
    forall i :: 0 <= i < |xs| && Truthy(xs[i].description) && xs[i].link in tbl.entries ==>
      Truthy(tbl.entries[xs[i].link].description)
      && |xs[i].description.value| <= |tbl.entries[xs[i].link].description.value|
  }

  ghost predicate MissingIffFirst(xs: seq<Image>, tbl: LinkTable) {
    forall i :: FirstAt(xs, i) && xs[i].link in tbl.entries ==>
      (xs[i].description.None? <==> tbl.entries[xs[i].link].description.None?)
  }

  lemma {:induction false} FirstOccurrence(xs: seq<Image>, l: string) returns (i: nat)
    requires exists k :: 0 <= k < |xs| && xs[k].link == l
    ensures FirstAt(xs, i) && xs[i].link == l
    decreases |xs|
  {
    if xs[0].link == l {
      i := 0;
    } else {
      var k :| 0 <= k < |xs| && xs[k].link == l;
      assert xs[1..][k - 1] == xs[k];
      var j := FirstOccurrence(xs[1..], l);
      i := j + 1;
      assert forall m :: 1 <= m < i ==> xs[m] == xs[1..][m - 1];
    }
  }

  lemma LinksOfSnoc(p: seq<Image>, x: Image)
    ensures LinksOf(p + [x]) == LinksOf(p) + [x.link]
    ensures LinksOf(p + [x])[..|p|] == LinksOf(p)
  {
    assert LinksOf(p + [x]) == LinksOf(p) + [x.link];
  }

  lemma ConflictGrows(p: seq<Image>, x: Image)
    requires Conflict(p)
    ensures Conflict(p + [x])
  {
    var xs := p + [x];
    var i, j :| 0 <= i < j < |p| && FirstAt(p, i) && p[j].link == p[i].link
      && p[i].description.None? && Truthy(p[j].description);
    assert xs[i] == p[i] && xs[j] == p[j];
    assert forall k :: 0 <= k < i ==> xs[k] == p[k];
    assert FirstAt(xs, i);
  }

  /** A conflict of `p + [x]` that does not end at `x` is one of `p`. */
  lemma ConflictAtEnd(p: seq<Image>, x: Image)
    requires !Conflict(p) && Conflict(p + [x])
    ensures exists i :: FirstAt(p, i) && p[i].link == x.link && p[i].description.None? && Truthy(x.description)
  {
    var xs := p + [x];
    var i, j :| 0 <= i < j < |xs| && FirstAt(xs, i) && xs[j].link == xs[i].link
      && xs[i].description.None? && Truthy(xs[j].description);
    assert forall k :: 0 <= k < |p| ==> xs[k] == p[k];
    assert FirstAt(p, i);
    if j < |p| {
      assert Conflict(p);
    }
  }

  lemma Snoc(p: seq<Image>, x: Image)
    ensures forall k :: 0 <= k < |p| ==> (p + [x])[k] == p[k]
    ensures (p + [x])[|p|] == x
    ensures forall i :: 0 <= i < |p| && FirstAt(p + [x], i) ==> FirstAt(p, i)
  {
    var xs := p + [x];
    forall i | 0 <= i < |p| && FirstAt(xs, i) ensures FirstAt(p, i) {
      assert forall k :: 0 <= k < i ==> xs[k] == p[k];
    }
  }

  /** Images of links already present keep the set of links. */
  lemma OldLinkKeeps(p: seq<Image>, x: Image, tbl: LinkTable, t: LinkTable)
    requires LinkOrder(p, tbl) && Covered(p, tbl) && SelfKeyed(tbl) && x.link in tbl.entries
    requires t.links == tbl.links && t.entries.Keys == tbl.entries.Keys
    requires forall l :: l in t.entries ==> t.entries[l].link == l
    ensures LinkOrder(p + [x], t) && Covered(p + [x], t) && SelfKeyed(t)
  {
    LinksOfSnoc(p, x);
    DedupFirstSeen(LinksOf(p));
    assert x.link in LinksOf(p);
    Snoc(p, x);
  }

  lemma OldLinkNotFirst(p: seq<Image>, x: Image, tbl: LinkTable)
    requires LinkOrder(p, tbl) && x.link in tbl.entries
    ensures !FirstAt(p + [x], |p|)
    ensures exists k :: 0 <= k < |p| && p[k].link == x.link
  {
    DedupFirstSeen(LinksOf(p));
    assert x.link in LinksOf(p);
    var k :| 0 <= k < |p| && LinksOf(p)[k] == x.link;
    assert (p + [x])[k] == p[k];
  }

  lemma StepNewLinks(p: seq<Image>, x: Image, tbl: LinkTable)
    requires LinkOrder(p, tbl) && Covered(p, tbl) && SelfKeyed(tbl) && x.link !in tbl.entries
    ensures var t := LinkTable(tbl.links + [x.link], tbl.entries[x.link := x]);
      LinkOrder(p + [x], t) && Covered(p + [x], t) && SelfKeyed(t)
  {
    LinksOfSnoc(p, x);
    Snoc(p, x);
    assert LinksOf(p + [x])[..|p + [x]| - 1] == LinksOf(p);
  }

  lemma StepNewProvenance(p: seq<Image>, x: Image, tbl: LinkTable)
    requires Provenance(p, tbl) && Covered(p, tbl) && x.link !in tbl.entries
    ensures Provenance(p + [x], tbl.(entries := tbl.entries[x.link := x]))
  {
    var xs := p + [x];
    var t := tbl.entries[x.link := x];
    Snoc(p, x);
    forall l | l in t
      ensures exists i :: EarliestAt(xs, i, l, t[l].description)
    {
      if l != x.link {
        var i :| EarliestAt(p, i, l, tbl.entries[l].description);
        assert EarliestAt(xs, i, l, t[l].description);
      } else {
        forall j | 0 <= j < |p| ensures xs[j].link != l {
          assert xs[j] == p[j] && p[j].link in tbl.entries;
        }
        assert EarliestAt(xs, |p|, l, t[l].description);
      }
    }
  }

  lemma StepNewDescriptions(p: seq<Image>, x: Image, tbl: LinkTable)
    requires Covered(p, tbl) && Longest(p, tbl) && MissingIffFirst(p, tbl) && x.link !in tbl.entries
    ensures var t := tbl.(entries := tbl.entries[x.link := x]);
      Longest(p + [x], t) && MissingIffFirst(p + [x], t)
  {
    Snoc(p, x);
  }

  lemma StepNew(p: seq<Image>, x: Image, tbl: LinkTable)
    requires Summarises(p, tbl) && !Conflict(p) && x.link !in tbl.entries
    ensures Summarises(p + [x], LinkTable(tbl.links + [x.link], tbl.entries[x.link := x]))
    ensures !Conflict(p + [x])
  {
    StepNewLinks(p, x, tbl);
    StepNewProvenance(p, x, tbl);
    StepNewDescriptions(p, x, tbl);
    if Conflict(p + [x]) {
      ConflictAtEnd(p, x);
    }
  }

  lemma StepSkipDescriptions(p: seq<Image>, x: Image, tbl: LinkTable)
    requires LinkOrder(p, tbl) && Longest(p, tbl) && MissingIffFirst(p, tbl)
    requires x.link in tbl.entries && !Truthy(x.description)
    ensures Longest(p + [x], tbl) && MissingIffFirst(p + [x], tbl)
  {
    Snoc(p, x);
    OldLinkNotFirst(p, x, tbl);
  }

  lemma StepSkip(p: seq<Image>, x: Image, tbl: LinkTable)
    requires Summarises(p, tbl) && !Conflict(p) && x.link in tbl.entries && !Truthy(x.description)
    ensures Summarises(p + [x], tbl)
    ensures !Conflict(p + [x])
  {
    OldLinkKeeps(p, x, tbl, tbl);
    StepKeepProvenance(p, x, tbl, tbl);
    StepSkipDescriptions(p, x, tbl);
    if Conflict(p + [x]) {
      ConflictAtEnd(p, x);
    }
  }

  lemma StepFail(p: seq<Image>, x: Image, tbl: LinkTable)
    requires Summarises(p, tbl) && x.link in tbl.entries && Truthy(x.description)
    requires tbl.entries[x.link].description.None?
    ensures Conflict(p + [x])
  {
    var xs := p + [x];
    OldLinkNotFirst(p, x, tbl);
    var i := FirstOccurrence(p, x.link);
    Snoc(p, x);
    assert forall k :: 0 <= k < i ==> xs[k] == p[k];
    assert FirstAt(xs, i);
  }

  lemma StepKeepProvenance(p: seq<Image>, x: Image, tbl: LinkTable, t: LinkTable)
    requires Provenance(p, tbl) && Longest(p, tbl) && x.link in tbl.entries
    requires t == tbl
      || (&& Truthy(x.description) && tbl.entries[x.link].description.Some?
          && |tbl.entries[x.link].description.value| < |x.description.value|
          && t == tbl.(entries := tbl.entries[x.link := tbl.entries[x.link].(description := x.description)]))
    ensures Provenance(p + [x], t)
  {
    var xs := p + [x];
    Snoc(p, x);
    forall l | l in t.entries
      ensures exists i :: EarliestAt(xs, i, l, t.entries[l].description)
    {
      if t != tbl && l == x.link {
        forall j | 0 <= j < |p| && xs[j].link == l && Truthy(xs[j].description)
          ensures |xs[j].description.value| < |x.description.value|
        {
          assert xs[j] == p[j];
        }
        assert EarliestAt(xs, |p|, l, t.entries[l].description);
      } else {
        assert t.entries[l] == tbl.entries[l];
        var i :| EarliestAt(p, i, l, tbl.entries[l].description);
        assert EarliestAt(xs, i, l, t.entries[l].description);
      }
    }
  }

  lemma StepKeepDescriptions(p: seq<Image>, x: Image, tbl: LinkTable, t: LinkTable)
    requires LinkOrder(p, tbl) && Longest(p, tbl) && MissingIffFirst(p, tbl)
    requires x.link in tbl.entries && Truthy(x.description) && tbl.entries[x.link].description.Some?
    requires var kept := tbl.entries[x.link];
      t == if |kept.description.value| < |x.description.value|
           then tbl.(entries := tbl.entries[x.link := kept.(description := x.description)])
           else tbl
    ensures Longest(p + [x], t) && MissingIffFirst(p + [x], t)
  {
    var xs := p + [x];
    Snoc(p, x);
    OldLinkNotFirst(p, x, tbl);
    forall i | 0 <= i < |xs| && Truthy(xs[i].description) && xs[i].link in t.entries
      ensures Truthy(t.entries[xs[i].link].description)
        && |xs[i].description.value| <= |t.entries[xs[i].link].description.value|
    {
      if i < |p| {
        assert xs[i] == p[i];
      }
    }
  }

  lemma StepKeep(p: seq<Image>, x: Image, tbl: LinkTable, t: LinkTable)
    requires Summarises(p, tbl) && !Conflict(p) && x.link in tbl.entries && Truthy(x.description)
    requires tbl.entries[x.link].description.Some?
    requires var kept := tbl.entries[x.link];
      t == if |kept.description.value| < |x.description.value|
           then tbl.(entries := tbl.entries[x.link := kept.(description := x.description)])
           else tbl
    ensures Summarises(p + [x], t)
    ensures !Conflict(p + [x])
  {
    OldLinkKeeps(p, x, tbl, t);
    StepKeepProvenance(p, x, tbl, t);
    StepKeepDescriptions(p, x, tbl, t);
    if Conflict(p + [x]) {
      ConflictAtEnd(p, x);
    }
  }

  /** The dictionary loop fails exactly on a conflict, and otherwise
      summarises the images it saw. */
  lemma {:induction false} ImageFoldSpec(xs: seq<Image>)
    ensures ImageFold(xs).Err? <==> Conflict(xs)
    ensures ImageFold(xs).Ok? ==> Summarises(xs, ImageFold(xs).value)
    decreases |xs|
  {
    if xs == [] {
      assert LinksOf(xs) == [];
    } else {
      var n := |xs| - 1;
      var p, x := xs[..n], xs[n];
      assert xs == p + [x];
      ImageFoldSpec(p);
      match ImageFold(p)
      case Err(_) =>
        ConflictGrows(p, x);
      case Ok(tbl) =>
        if x.link !in tbl.entries {
          StepNew(p, x, tbl);
        } else if !Truthy(x.description) {
          StepSkip(p, x, tbl);
        } else if tbl.entries[x.link].description.None? {
          StepFail(p, x, tbl);
        } else {
          StepKeep(p, x, tbl, ImageFold(xs).value);
        }
    }
  }

  /** `out` is what the merge makes of the images `xs` of one field: one image
      per distinct link, first seen first, each with the description of the
      earliest image of its link whose description is at least as long as
      every truthy one, and missing exactly when the first image of the link
      had none. `MergedImagesUnique` shows that this determines `out`. */
  ghost predicate MergedImages(xs: seq<Image>, out: seq<Image>) {
    && LinksOf(out) == Dedup(LinksOf(xs))
    && EarliestEach(xs, out)
    && (forall i, k :: 0 <= i < |xs| && 0 <= k < |out| && out[k].link == xs[i].link && Truthy(xs[i].description) ==>
          Truthy(out[k].description) && |xs[i].description.value| <= |out[k].description.value|)
    && (forall i, k :: FirstAt(xs, i) && 0 <= k < |out| && out[k].link == xs[i].link ==>
          (xs[i].description.None? <==> out[k].description.None?))
  }

  /** Each image of `out` carries the description that `EarliestAt` picks
      for its link. */
  ghost predicate EarliestEach(xs: seq<Image>, out: seq<Image>) {
    forall k :: 0 <= k < |out| ==> EarliestFor(xs, out[k])
  }

  ghost predicate EarliestFor(xs: seq<Image>, e: Image) {
    exists i :: EarliestAt(xs, i, e.link, e.description)
  }

  lemma EntriesSummarise(xs: seq<Image>, tbl: LinkTable)
    requires Summarises(xs, tbl)
    ensures MergedImages(xs, Entries(tbl))
  {
    EntriesLinks(xs, tbl);
    EntriesProvenance(xs, tbl);
    EntriesLongest(xs, tbl);
    EntriesMissing(xs, tbl);
  }

  /** When every listed link is stored under itself, the entries are the
      stored images in link order. */
  lemma EntriesByLink(tbl: LinkTable)
    requires (forall l :: l in tbl.entries <==> l in tbl.links) && SelfKeyed(tbl)
    ensures |Entries(tbl)| == |tbl.links|
    ensures forall k :: 0 <= k < |tbl.links| ==> Entries(tbl)[k] == tbl.entries[tbl.links[k]]
    ensures LinksOf(Entries(tbl)) == tbl.links
  {
    var out := Entries(tbl);
    forall k | 0 <= k < |out| ensures LinksOf(out)[k] == tbl.links[k] {
      assert out[k] == tbl.entries[tbl.links[k]];
    }
  }

  lemma EntriesLinks(xs: seq<Image>, tbl: LinkTable)
    requires Summarises(xs, tbl)
    ensures LinksOf(Entries(tbl)) == Dedup(LinksOf(xs))
  {
    EntriesByLink(tbl);
  }

  lemma EntriesProvenance(xs: seq<Image>, tbl: LinkTable)
    requires (forall l :: l in tbl.entries <==> l in tbl.links) && SelfKeyed(tbl) && Provenance(xs, tbl)
    ensures EarliestEach(xs, Entries(tbl))
  {
    EntriesByLink(tbl);
    var out := Entries(tbl);
    forall k | 0 <= k < |out|
      ensures EarliestFor(xs, out[k])
    {
      var l := tbl.links[k];
      assert l in tbl.entries;
      EntryEarliest(xs, tbl, l, out[k]);
    }
  }

  lemma EntryEarliest(xs: seq<Image>, tbl: LinkTable, l: string, e: Image)
    requires Provenance(xs, tbl) && l in tbl.entries && e == tbl.entries[l] && e.link == l
    ensures EarliestFor(xs, e)
  {
  }

  lemma EntriesLongest(xs: seq<Image>, tbl: LinkTable)
    requires Summarises(xs, tbl)
    ensures forall i, k :: 0 <= i < |xs| && 0 <= k < |Entries(tbl)| && Entries(tbl)[k].link == xs[i].link && Truthy(xs[i].description) ==>
      Truthy(Entries(tbl)[k].description) && |xs[i].description.value| <= |Entries(tbl)[k].description.value|
  {
    EntriesByLink(tbl);
    var out := Entries(tbl);
    forall i, k | 0 <= i < |xs| && 0 <= k < |out| && out[k].link == xs[i].link && Truthy(xs[i].description)
      ensures Truthy(out[k].description) && |xs[i].description.value| <= |out[k].description.value|
    {
      var l := tbl.links[k];
      assert out[k] == tbl.entries[l] && l in tbl.entries;
      assert l == xs[i].link;
    }
  }

  lemma EntriesMissing(xs: seq<Image>, tbl: LinkTable)
    requires Summarises(xs, tbl)
    ensures forall i, k :: FirstAt(xs, i) && 0 <= k < |Entries(tbl)| && Entries(tbl)[k].link == xs[i].link ==>
      (xs[i].description.None? <==> Entries(tbl)[k].description.None?)
  {
    EntriesByLink(tbl);
    var out := Entries(tbl);
    forall i, k | FirstAt(xs, i) && 0 <= k < |out| && out[k].link == xs[i].link
      ensures xs[i].description.None? <==> out[k].description.None?
    {
      var l := tbl.links[k];
      assert out[k] == tbl.entries[l] && l in tbl.entries;
      assert l == xs[i].link;
    }
  }

  /** At most one list of images is the merge of `xs`: the link order is
      fixed, and so is the description of each link. */
  lemma MergedImagesUnique(xs: seq<Image>, o1: seq<Image>, o2: seq<Image>)
    requires MergedImages(xs, o1) && MergedImages(xs, o2)
    ensures o1 == o2
  {
    assert |o1| == |LinksOf(o1)| == |LinksOf(o2)| == |o2|;
    forall k | 0 <= k < |o1| ensures o1[k] == o2[k] {
      assert LinksOf(o1)[k] == LinksOf(o2)[k];
      SameDescription(xs, o1, o2, k);
    }
  }

  lemma SameDescription(xs: seq<Image>, o1: seq<Image>, o2: seq<Image>, k: nat)
    requires MergedImages(xs, o1) && MergedImages(xs, o2)
    requires k < |o1| && k < |o2| && o1[k].link == o2[k].link
    ensures o1[k].description == o2[k].description
  {
    var l, d1, d2 := o1[k].link, o1[k].description, o2[k].description;
    var i1 :| EarliestAt(xs, i1, l, d1);
    var i2 :| EarliestAt(xs, i2, l, d2);
    if Truthy(d1) || Truthy(d2) {
      assert Truthy(d1) ==> Truthy(d2) && |d1.value| <= |d2.value| by {
        if Truthy(d1) { assert xs[i1].link == o2[k].link && Truthy(xs[i1].description); }
      }
      assert Truthy(d2) ==> Truthy(d1) && |d2.value| <= |d1.value| by {
        if Truthy(d2) { assert xs[i2].link == o1[k].link && Truthy(xs[i2].description); }
      }
      assert i1 == i2;
    } else {
      var f := FirstOccurrence(xs, l);
      assert (xs[f].description.None? <==> d1.None?) && (xs[f].description.None? <==> d2.None?);
    }
  }

  /** One field of `ImagesMerger.merge`: it fails exactly on a conflict, and
      otherwise yields the merged images of the field. */
  lemma ImageFieldSpec(xs: seq<Image>)
    ensures ImageFold(xs).Err? <==> Conflict(xs)
    ensures ImageFold(xs).Ok? ==> MergedImages(xs, Entries(ImageFold(xs).value))
  {
    ImageFoldSpec(xs);
    if ImageFold(xs).Ok? {
      EntriesSummarise(xs, ImageFold(xs).value);
    }
  }

  /** Every field of `v` holds the merged images of that field over the batch. */
  ghost predicate ImagesMerged(batch: seq<Tagged<Option<HotelImages>>>, v: HotelImages) {
    && v.rooms.Some? && MergedImages(Flatten(Lists(batch, RoomsOf)), v.rooms.value)
    && v.site.Some? && MergedImages(Flatten(Lists(batch, SiteOf)), v.site.value)
    && v.amenities.Some? && MergedImages(Flatten(Lists(batch, AmenityImagesOf)), v.amenities.value)
  }

  /** On a non-empty batch `ImagesMerger.merge` fails exactly when one of the
      three fields has a conflict, and otherwise returns the three merged
      fields. */
  lemma ImagesMergeSpec(batch: seq<Tagged<Option<HotelImages>>>)
    ensures batch != [] ==> (ImagesMerge(batch).Err? <==>
      Conflict(Flatten(Lists(batch, RoomsOf))) || Conflict(Flatten(Lists(batch, SiteOf)))
      || Conflict(Flatten(Lists(batch, AmenityImagesOf))))
    ensures batch != [] && ImagesMerge(batch).Ok? ==>
      ImagesMerge(batch).value.Some? && ImagesMerged(batch, ImagesMerge(batch).value.value)
  {
    ImageFieldSpec(Flatten(Lists(batch, RoomsOf)));
    ImageFieldSpec(Flatten(Lists(batch, SiteOf)));
    ImageFieldSpec(Flatten(Lists(batch, AmenityImagesOf)));
  }

  /** A room image first sent without a description and then, by another
      supplier, with one makes `ImagesMerger.merge` raise. */
  lemma ImagesConflictExample()
    ensures ImagesMerge([Encode(Some(HotelImages(Some([Image("l", None)]), None, None)), "acme"),
                         Encode(Some(HotelImages(Some([Image("l", Some("pool"))]), None, None)), "patagonia")]).Err?
  {
    var batch := [Encode(Some(HotelImages(Some([Image("l", None)]), None, None)), "acme"),
                  Encode(Some(HotelImages(Some([Image("l", Some("pool"))]), None, None)), "patagonia")];
    var a, b := Image("l", None), Image("l", Some("pool"));
    RoomsExample(batch, a, b);
    ConflictingPair(a, b);
  }

  lemma RoomsExample(batch: seq<Tagged<Option<HotelImages>>>, a: Image, b: Image)
    requires batch == [Encode(Some(HotelImages(Some([a]), None, None)), "acme"),
                       Encode(Some(HotelImages(Some([b]), None, None)), "patagonia")]
    ensures Flatten(Lists(batch, RoomsOf)) == [a, b]
  {
    assert batch[..1][..0] == [];
    assert RoomsOf(HotelImages(Some([a]), None, None)) == [a];
    assert RoomsOf(HotelImages(Some([b]), None, None)) == [b];
    assert Lists(batch[..1], RoomsOf) == [[a]];
    var ls := Lists(batch, RoomsOf);
    assert ls == [[a]] + [[b]];
    assert ls[..1] == [[a]] && ls[..1][..0] == [];
    assert Flatten(ls[..1]) == [a];
  }

  lemma ConflictingPair(a: Image, b: Image)
    requires a == Image("l", None) && b == Image("l", Some("pool"))
    ensures ImageFold([a, b]).Err?
  {
    assert [a, b][..1] == [a] && [a][..0] == [];
    assert ImageFold([]) == Ok(EmptyTable);
    assert EmptyTable.links + [a.link] == ["l"];
    assert ImageFold([a]) == ImageStep(EmptyTable, a);
    assert ImageFold([a]) == Ok(LinkTable(["l"], map["l" := a]));
  }

  /** Two equally long descriptions of one link: the first one stays, and
      the merge that kept the second one is not the merge of the two. */
  lemma TieKeepsFirst(a: Image, b: Image)
    requires a == Image("l", Some("ab")) && b == Image("l", Some("cd"))
    ensures ImageFold([a, b]) == Ok(LinkTable(["l"], map["l" := a]))
    ensures MergedImages([a, b], [a]) && !MergedImages([a, b], [b])
  {
    TieFold(a, b);
    TieEntries(a);
    ImageFieldSpec([a, b]);
    if MergedImages([a, b], [b]) {
      MergedImagesUnique([a, b], [a], [b]);
    }
  }

  lemma TieFold(a: Image, b: Image)
    requires a == Image("l", Some("ab")) && b == Image("l", Some("cd"))
    ensures ImageFold([a, b]) == Ok(LinkTable(["l"], map["l" := a]))
  {
    assert [a, b][..1] == [a] && [a][..0] == [];
    assert ImageFold([]) == Ok(EmptyTable);
    assert EmptyTable.links + [a.link] == ["l"];
    assert ImageFold([a]) == ImageStep(EmptyTable, a);
    assert ImageFold([a]) == Ok(LinkTable(["l"], map["l" := a]));
  }

  lemma TieEntries(a: Image)
    requires a.link == "l"
    ensures Entries(LinkTable(["l"], map["l" := a])) == [a]
  {
    var tbl := LinkTable(["l"], map["l" := a]);
    assert ["l"][..0] == [];
    assert Entries(tbl) == ValuesIn(["l"], tbl.entries);
  }
}
