/** Source confidence of `utils/bias.py`: a read-only table of named factors,
    each mapping a source id to a score, the mean score of a source over the
    factors that define it, and a three-way comparison of two sources. */
module Bias {
  import opened Wrappers

  /** One entry of the `bias_factors` dictionary. */
  datatype Factor = Factor(name: string, scores: map<string, real>)

  /** The `bias_factors` dictionary, in key-insertion order. */
  type Table = seq<Factor>

  /** Dictionary keys are unique. */
  ghost predicate UniqueNames(t: Table) {
    forall i, j :: 0 <= i < j < |t| ==> t[i].name != t[j].name
  }

  /** The error raised when a known field has no score for the id. */
  datatype BiasError = KeyError(key: string)

  /** `get_factor_names`: the keys, in order. */
  function FactorNames(t: Table): (r: seq<string>)
    ensures |r| == |t|
    ensures forall i :: 0 <= i < |t| ==> r[i] == t[i].name
  {
    if t == [] then [] else [t[0].name] + FactorNames(t[1..])
  }

  /** The scores of the factor with this name, if there is one. */
  function FindFactor(t: Table, name: string): Option<map<string, real>> {
    if t == [] then None
    else if t[0].name == name then Some(t[0].scores)
    else FindFactor(t[1..], name)
  }

  lemma {:induction false} FindFactorSpec(t: Table, name: string)
    requires UniqueNames(t)
    ensures FindFactor(t, name).None? <==> forall i :: 0 <= i < |t| ==> t[i].name != name
    ensures forall i :: 0 <= i < |t| && t[i].name == name ==> FindFactor(t, name) == Some(t[i].scores)
  {
    if t != [] {
      assert UniqueNames(t[1..]) by {
        forall i, j | 0 <= i < j < |t[1..]| ensures t[1..][i].name != t[1..][j].name {
          assert t[1..][i] == t[i + 1] && t[1..][j] == t[j + 1];
        }
      }
      FindFactorSpec(t[1..], name);
      assert forall i :: 1 <= i < |t| ==> t[i] == t[1..][i - 1];
    }
  }

  /** `[score for score in (factor.get(id) for factor in values) if score is
      not None]`: the scores the factors give `id`, in factor order. */
  function Scores(t: Table, id: string): seq<real> {
    if t == [] then []
    else (if id in t[0].scores then [t[0].scores[id]] else []) + Scores(t[1..], id)
  }

  function Sum(xs: seq<real>): real {
    if xs == [] then 0.0 else xs[0] + Sum(xs[1..])
  }

  /** `get_bias_score(id)` with no field: the arithmetic mean of the scores,
      or `None` when no factor defines `id`. */
  function MeanScore(t: Table, id: string): Option<real> {
    var xs := Scores(t, id);
    if |xs| == 0 then None else Some(Sum(xs) / (|xs| as real))
  }

  /** `HotelBias.get_bias_score(id, field)`: without a field the lookup never
      raises and is `None` exactly when no factor defines the id; only a known
      field can raise, and then with a `KeyError` for the id. */
  function GetBiasScore(t: Table, id: string, field: Option<string>): (r: Result<Option<real>, BiasError>)
    ensures field.None? ==> r.Ok? && (r.value.None? <==> forall i :: 0 <= i < |t| ==> id !in t[i].scores)
    ensures r.Err? ==> field.Some? && FindFactor(t, field.value).Some? && r.error == KeyError(id)
  {
    match field
    case None =>
      ScoresMembers(t, id);
      Ok(MeanScore(t, id))
    case Some(f) =>
      match FindFactor(t, f)
      case None => Ok(None)
      case Some(scores) => if id in scores then Ok(Some(scores[id])) else Err(KeyError(id))
  }

  /** The four cases of `compare_bias`, on the two scores. */
  function CompareScores(b1: Option<real>, b2: Option<real>): real {
    if b1.None? && b2.None? then 0.0
    else if b1.None? then -1.0
    else if b2.None? then 1.0
    else b1.value - b2.value
  }

  /** `HotelBias.compare_bias(id1, id2)`: positive exactly when the first
      source is scored and the second is unscored or scored lower, negative in
      the mirror case, and zero exactly when the two scores are equal or both
      missing. */
  function CompareBias(t: Table, id1: string, id2: string): (r: real)
    ensures r > 0.0 <==>
      MeanScore(t, id1).Some? && (MeanScore(t, id2).None? || MeanScore(t, id1).value > MeanScore(t, id2).value)
    ensures r < 0.0 <==>
      MeanScore(t, id2).Some? && (MeanScore(t, id1).None? || MeanScore(t, id1).value < MeanScore(t, id2).value)
    ensures r == 0.0 <==> MeanScore(t, id1) == MeanScore(t, id2)
  {
    CompareScores(MeanScore(t, id1), MeanScore(t, id2))
  }

  /** The bias table of the shipped configuration. */
  const ShippedTable: Table := [Factor("confidence_level", map["acme" := 0.9, "patagonia" := 0.9, "paperflies" := 0.9])]

  // ---------------------------------------------------------------------
  // Properties

  lemma {:induction false} ScoresMembers(t: Table, id: string)
    ensures forall x :: x in Scores(t, id) <==> exists i :: 0 <= i < |t| && id in t[i].scores && t[i].scores[id] == x
    ensures |Scores(t, id)| == 0 <==> forall i :: 0 <= i < |t| ==> id !in t[i].scores
  {
    if t != [] {
      ScoresMembers(t[1..], id);
      assert forall i :: 1 <= i < |t| ==> t[i] == t[1..][i - 1];
      forall x | x in Scores(t, id) ensures exists i :: 0 <= i < |t| && id in t[i].scores && t[i].scores[id] == x {
        if id in t[0].scores && x == t[0].scores[id] {
          assert 0 < |t| && id in t[0].scores && t[0].scores[id] == x;
        } else {
          assert x in Scores(t[1..], id);
          var j :| 0 <= j < |t[1..]| && id in t[1..][j].scores && t[1..][j].scores[id] == x;
          assert t[j + 1] == t[1..][j];
        }
      }
      forall x | exists i :: 0 <= i < |t| && id in t[i].scores && t[i].scores[id] == x ensures x in Scores(t, id) {
        var i :| 0 <= i < |t| && id in t[i].scores && t[i].scores[id] == x;
        if i > 0 {
          assert t[1..][i - 1] == t[i];
        }
      }
    }
  }

  lemma {:induction false} SumBounds(xs: seq<real>, lo: real, hi: real)
    requires forall k :: 0 <= k < |xs| ==> lo <= xs[k] <= hi
    ensures lo * (|xs| as real) <= Sum(xs) <= hi * (|xs| as real)
  {
    if xs != [] {
      SumBounds(xs[1..], lo, hi);
    }
  }

  /** The mean lies between any bounds on the scores of the factors that
      define the source. */
  lemma MeanBounds(t: Table, id: string, lo: real, hi: real)
    requires forall i :: 0 <= i < |t| && id in t[i].scores ==> lo <= t[i].scores[id] <= hi
    ensures MeanScore(t, id).Some? ==> lo <= MeanScore(t, id).value <= hi
  {
    var xs := Scores(t, id);
    if |xs| > 0 {
      ScoresMembers(t, id);
      forall k | 0 <= k < |xs| ensures lo <= xs[k] <= hi {
        assert xs[k] in xs;
      }
      SumBounds(xs, lo, hi);
      DivBounds(Sum(xs), |xs| as real, lo, hi);
    }
  }

  lemma DivBounds(s: real, n: real, lo: real, hi: real)
    requires n > 0.0 && lo * n <= s <= hi * n
    ensures lo <= s / n <= hi
  {
    assert (s / n) * n == s;
  }

  /** `get_bias_score(id)` is `None` exactly when no factor defines `id`, and
      is otherwise a mean lying between the smallest and largest of its scores. */
  lemma MeanScoreSpec(t: Table, id: string)
    ensures MeanScore(t, id).None? <==> forall i :: 0 <= i < |t| ==> id !in t[i].scores
    ensures MeanScore(t, id).Some? ==>
      (exists i :: 0 <= i < |t| && id in t[i].scores && t[i].scores[id] <= MeanScore(t, id).value)
      && (exists i :: 0 <= i < |t| && id in t[i].scores && MeanScore(t, id).value <= t[i].scores[id])
  {
    ScoresMembers(t, id);
    var xs := Scores(t, id);
    if |xs| > 0 {
      var lo, hi := MinMax(xs);
      forall i | 0 <= i < |t| && id in t[i].scores ensures lo <= t[i].scores[id] <= hi {
        var x := t[i].scores[id];
        assert x in xs;
      }
      MeanBounds(t, id, lo, hi);
      assert lo in xs && hi in xs;
    }
  }

  lemma {:induction false} MinMax(xs: seq<real>) returns (lo: real, hi: real)
    requires xs != []
    ensures lo in xs && hi in xs
    ensures forall x :: x in xs ==> lo <= x <= hi
  {
    if |xs| == 1 {
      lo, hi := xs[0], xs[0];
    } else {
      var l, h := MinMax(xs[1..]);
      assert forall x :: x in xs ==> x == xs[0] || x in xs[1..];
      lo := if xs[0] < l then xs[0] else l;
      hi := if xs[0] > h then xs[0] else h;
    }
  }

  /** When every defining factor gives the source the same score, that score
      is its mean. */
  lemma MeanConstant(t: Table, id: string, c: real)
    requires exists i :: 0 <= i < |t| && id in t[i].scores
    requires forall i :: 0 <= i < |t| && id in t[i].scores ==> t[i].scores[id] == c
    ensures MeanScore(t, id) == Some(c)
  {
    ScoresMembers(t, id);
    MeanBounds(t, id, c, c);
  }

  /** With a field: an unknown field gives `None`, a known one the field's
      score for the id, and a missing id a `KeyError`. */
  lemma GetBiasScoreField(t: Table, id: string, f: string)
    requires UniqueNames(t)
    ensures GetBiasScore(t, id, Some(f)) == Ok(None) <==> forall i :: 0 <= i < |t| ==> t[i].name != f
    ensures GetBiasScore(t, id, Some(f)) == Err(KeyError(id)) <==>
      exists i :: 0 <= i < |t| && t[i].name == f && id !in t[i].scores
    ensures forall i :: 0 <= i < |t| && t[i].name == f && id in t[i].scores ==>
      GetBiasScore(t, id, Some(f)) == Ok(Some(t[i].scores[id]))
  {
    FindFactorSpec(t, f);
  }

  /** The four cases of `compare_bias`. */
  lemma CompareBiasCases(t: Table, a: string, b: string)
    ensures MeanScore(t, a).None? && MeanScore(t, b).None? ==> CompareBias(t, a, b) == 0.0
    ensures MeanScore(t, a).None? && MeanScore(t, b).Some? ==> CompareBias(t, a, b) == -1.0
    ensures MeanScore(t, a).Some? && MeanScore(t, b).None? ==> CompareBias(t, a, b) == 1.0
    ensures MeanScore(t, a).Some? && MeanScore(t, b).Some? ==>
      CompareBias(t, a, b) == MeanScore(t, a).value - MeanScore(t, b).value
  {
  }

  /** A source ties with itself. */
  lemma CompareBiasReflexive(t: Table, a: string)
    ensures CompareBias(t, a, a) == 0.0
  {
  }

  /** Swapping the sources negates the comparison. */
  lemma CompareBiasAntisymmetric(t: Table, a: string, b: string)
    ensures CompareBias(t, a, b) == -CompareBias(t, b, a)
  {
  }

  /** Under the shipped table, any two of acme, patagonia and paperflies tie. */
  lemma ShippedSuppliersTie(a: string, b: string)
    requires a in ["acme", "patagonia", "paperflies"] && b in ["acme", "patagonia", "paperflies"]
    ensures CompareBias(ShippedTable, a, b) == 0.0
  {
    ShippedMean(a);
    ShippedMean(b);
  }

  lemma ShippedMean(a: string)
    requires a in ["acme", "patagonia", "paperflies"]
    ensures MeanScore(ShippedTable, a) == Some(0.9)
  {
    var m := ShippedTable[0].scores;
    assert a in m && m[a] == 0.9;
    MeanConstant(ShippedTable, a, 0.9);
  }
}
