/** The post-processing half of `yolo::predict` and the state of the `yolo`
    object. Inference itself (pre-processing, the ONNX Runtime session, softmax)
    produces the `scores` that are an input here. */
module Yolo {
  import opened Wrappers
  import opened Text

  /** `struct prediction`. Confidences are reals standing for `float`s. */
  datatype Prediction = Prediction(className: string, confidence: real)

  /** `std::pair<int, float>`: a class index and its score. */
  datatype IndexedScore = IndexedScore(index: nat, score: real)

  function Min(a: nat, b: nat): nat {
    if a <= b then a else b
  }

  /** The scores paired with their indices, in index order. */
  function Indexed(scores: seq<real>): (r: seq<IndexedScore>)
    ensures |r| == |scores|
    ensures forall i :: 0 <= i < |r| ==> r[i] == IndexedScore(i, scores[i])
  {
    seq(|scores|, i requires 0 <= i < |scores| => IndexedScore(i, scores[i]))
  }

  predicate SortedDescending(s: seq<IndexedScore>) {
    forall i, j :: 0 <= i < j < |s| ==> s[i].score >= s[j].score
  }

  predicate Selected(top: seq<IndexedScore>, index: nat) {
    exists l :: 0 <= l < |top| && top[l].index == index
  }

  /** What the selection promises: `min(k, |scores|)` entries, by non-increasing
      score, from distinct indices, each carrying its own score, and no score
      left out is above a score kept. Among equal scores any choice is allowed,
      as `std::sort` is not stable. */
  predicate IsTopK(scores: seq<real>, k: nat, top: seq<IndexedScore>) {
    && |top| == Min(k, |scores|)
    && SortedDescending(top)
    && (forall j :: 0 <= j < |top| ==> top[j].index < |scores| && top[j].score == scores[top[j].index])
    && (forall j, l :: 0 <= j < l < |top| ==> top[j].index != top[l].index)
    && (forall i, j :: 0 <= i < |scores| && 0 <= j < |top| && !Selected(top, i) ==> scores[i] <= top[j].score)
  }

  // ---------------------------------------------------------------------------
  // Permutations of the indexed scores

  lemma {:induction false} DistinctOccurOnce(t: seq<IndexedScore>, x: IndexedScore)
    requires forall p, q :: 0 <= p < q < |t| ==> t[p] != t[q]
    ensures multiset(t)[x] <= 1
  {
    if t != [] {
      var init := t[..|t| - 1];
      assert t == init + [t[|t| - 1]];
      DistinctOccurOnce(init, x);
      if x == t[|t| - 1] {
        assert x !in init;
      }
    }
  }

  lemma TwiceOccursTwice(s: seq<IndexedScore>, p: nat, q: nat)
    requires p < q < |s| && s[p] == s[q]
    ensures multiset(s)[s[p]] >= 2
  {
    assert s == s[..q] + [s[q]] + s[q + 1..];
    assert s[p] in s[..q];
  }

  /** Any rearrangement of the indexed scores holds each index exactly once,
      with its own score. */
  lemma PermutationOfIndexed(s: seq<IndexedScore>, scores: seq<real>)
    requires multiset(s) == multiset(Indexed(scores))
    ensures |s| == |scores|
    ensures forall p :: 0 <= p < |s| ==> s[p].index < |scores| && s[p].score == scores[s[p].index]
    ensures forall p, q :: 0 <= p < q < |s| ==> s[p].index != s[q].index
    ensures forall i :: 0 <= i < |scores| ==> Selected(s, i)
  {
    var ix := Indexed(scores);
    assert |s| == |multiset(s)| == |multiset(ix)| == |scores|;
    forall p | 0 <= p < |s|
      ensures s[p].index < |scores| && s[p].score == scores[s[p].index]
    {
      assert s[p] in multiset(ix);
      var i :| 0 <= i < |ix| && ix[i] == s[p];
    }
    forall p, q | 0 <= p < q < |s| ensures s[p].index != s[q].index {
      if s[p].index == s[q].index {
        TwiceOccursTwice(s, p, q);
        DistinctOccurOnce(ix, s[p]);
      }
    }
    forall i | 0 <= i < |scores| ensures Selected(s, i) {
      assert ix[i] in multiset(s);
      var p :| 0 <= p < |s| && s[p] == ix[i];
      assert s[p].index == i;
    }
  }

  /** The first `min(k, n)` entries of a descending rearrangement of the indexed
      scores are a top-k selection. */
  lemma {:induction false} PrefixOfSortedIsTopK(s: seq<IndexedScore>, scores: seq<real>, k: nat)
    requires multiset(s) == multiset(Indexed(scores))
    requires SortedDescending(s)
    ensures IsTopK(scores, k, s[..Min(k, |s|)])
  {
    PermutationOfIndexed(s, scores);
    var top := s[..Min(k, |s|)];
    forall i, j | 0 <= i < |scores| && 0 <= j < |top| && !Selected(top, i)
      ensures scores[i] <= top[j].score
    {
      assert Selected(s, i);
      var p :| 0 <= p < |s| && s[p].index == i;
      assert p >= |top| ==> s[p].score <= s[j].score;
    }
  }

  // ---------------------------------------------------------------------------
  // The selection, done in place as the source does

  /** The position of a largest score in `a[from..]`. */
  method IndexOfMax(a: array<IndexedScore>, from: nat) returns (m: nat)
    requires from < a.Length
    ensures from <= m < a.Length
    ensures forall q :: from <= q < a.Length ==> a[m].score >= a[q].score
  {
    m := from;
    var j := from + 1;
    while j < a.Length
      invariant from <= m < j <= a.Length
      invariant forall q :: from <= q < j ==> a[m].score >= a[q].score
    {
      if a[j].score > a[m].score {
        m := j;
      }
      j := j + 1;
    }
  }

  method Swap(a: array<IndexedScore>, i: nat, j: nat)
    requires i < a.Length && j < a.Length
    modifies a
    ensures a[i] == old(a[j]) && a[j] == old(a[i])
    ensures forall p :: 0 <= p < a.Length && p != i && p != j ==> a[p] == old(a[p])
    ensures multiset(a[..]) == multiset(old(a[..]))
  {
    a[i], a[j] := a[j], a[i];
  }

  /** Sorts by descending score in place (a selection sort standing for `std::sort`
      with the comparator `a.second > b.second`). */
  method SortDescending(a: array<IndexedScore>)
    modifies a
    ensures SortedDescending(a[..])
    ensures multiset(a[..]) == multiset(old(a[..]))
  {
    var i := 0;
    while i < a.Length
      invariant 0 <= i <= a.Length
      invariant forall p, q :: 0 <= p < q < i ==> a[p].score >= a[q].score
      invariant forall p, q :: 0 <= p < i <= q < a.Length ==> a[p].score >= a[q].score
      invariant multiset(a[..]) == multiset(old(a[..]))
    {
      var m := IndexOfMax(a, i);
      Swap(a, i, m);
      i := i + 1;
    }
  }

  /** The index/score pairing, the sort and the copy of the first `min(k, n)` pairs. */
  method SelectTopK(scores: seq<real>, k: nat) returns (top: seq<IndexedScore>)
    ensures IsTopK(scores, k, top)
  {
    var a := new IndexedScore[|scores|];
    var i := 0;
    while i < |scores|
      invariant 0 <= i <= |scores|
      invariant forall p :: 0 <= p < i ==> a[p] == IndexedScore(p, scores[p])
    {
      a[i] := IndexedScore(i, scores[i]);
      i := i + 1;
    }
    assert a[..] == Indexed(scores);
    SortDescending(a);
    var count := Min(k, a.Length);
    top := [];
    var j := 0;
    while j < count
      invariant 0 <= j <= count
      invariant top == a[..j]
    {
      top := top + [a[j]];
      j := j + 1;
    }
    PrefixOfSortedIsTopK(a[..], scores, k);
  }

  // ---------------------------------------------------------------------------
  // Class names

  /** The name reported for a class index: its entry in the class-names file, or
      `class_<i>` when the file has no entry for it. */
  function ClassLabel(classNames: seq<string>, index: nat): (r: string)
    ensures index < |classNames| ==> r == classNames[index]
    ensures index >= |classNames| ==>
      |r| > 6 && r[..6] == "class_" && r[6..] == Decimal(index) && DecimalValue(r[6..]) == index
  {
    if index < |classNames| then classNames[index]
    else
      DecimalRoundTrip(index);
      var r := "class_" + Decimal(index);
      assert r[6..] == Decimal(index);
      r
  }

  /** The lookup as the source writes it, with the guard `index <= size`. `None`
      stands for the read one past the end of `class_names` that the guard lets
      through when `index == size`. */
  function ClassLabelAsWritten(classNames: seq<string>, index: nat): Option<string> {
    if index <= |classNames| then
      (if index < |classNames| then Some(classNames[index]) else None)
    else Some("class_" + Decimal(index))
  }

  /** The guard with `<=` agrees with the bounded lookup everywhere except at
      `index == |classNames|`, where it reads out of range. */
  lemma AsWrittenOffByOne(classNames: seq<string>, index: nat)
    ensures ClassLabelAsWritten(classNames, index) == None <==> index == |classNames|
    ensures index != |classNames| ==> ClassLabelAsWritten(classNames, index) == Some(ClassLabel(classNames, index))
  {}

  /** The smallest instance: a model with one output class and an empty names file. */
  lemma AsWrittenReadsPastEnd()
    ensures ClassLabelAsWritten([], 0) == None
    ensures ClassLabel([], 0) == "class_0"
  {
    assert Decimal(0) == "0";
  }

  /** Decimal renderings of different numbers differ. */
  lemma DecimalInjective(a: nat, b: nat)
    requires Decimal(a) == Decimal(b)
    ensures a == b
  {
    DecimalRoundTrip(a);
    DecimalRoundTrip(b);
  }

  /** Every label is the name from the file when there is one, and otherwise a
      `class_` placeholder that identifies the index. */
  lemma ClassLabelIdentifiesIndex(classNames: seq<string>, i: nat, j: nat)
    requires i >= |classNames| && j >= |classNames|
    requires ClassLabel(classNames, i) == ClassLabel(classNames, j)
    ensures i == j
  {
    var pre := "class_";
    assert ClassLabel(classNames, i)[|pre|..] == Decimal(i);
    assert ClassLabel(classNames, j)[|pre|..] == Decimal(j);
    DecimalInjective(i, j);
  }

  /** The predictions for a selection: its entries with their names. */
  function Labels(classNames: seq<string>, top: seq<IndexedScore>): (r: seq<Prediction>)
    ensures |r| == |top|
    ensures forall j :: 0 <= j < |top| ==> r[j] == Prediction(ClassLabel(classNames, top[j].index), top[j].score)
  {
    seq(|top|, j requires 0 <= j < |top| => Prediction(ClassLabel(classNames, top[j].index), top[j].score))
  }

  /** The fields of a `yolo` object the model keeps. */
  datatype ModelState = ModelState(
    hasSession: bool,
    inputWidth: int,
    inputHeight: int,
    classNames: seq<string>,
    inputNodesNum: nat,
    outputNodesNum: nat,
    useSoftmax: bool)

  /** The state of a default-constructed object, and of a moved-from one. */
  const Uninitialized: ModelState := ModelState(false, 0, 0, [], 0, 0, false)

  /** A `yolo` object. `hasSession` says whether `session` is non-null. */
  class Model {
    var hasSession: bool
    var inputWidth: int
    var inputHeight: int
    var classNames: seq<string>
    var inputNodesNum: nat
    var outputNodesNum: nat
    var useSoftmax: bool

    function State(): ModelState
      reads this
    {
      ModelState(hasSession, inputWidth, inputHeight, classNames, inputNodesNum, outputNodesNum, useSoftmax)
    }

    /** The default constructor: no session, nothing loaded. */
    constructor ()
      ensures State() == Uninitialized
    {
      hasSession, inputWidth, inputHeight, classNames := false, 0, 0, [];
      inputNodesNum, outputNodesNum, useSoftmax := 0, 0, false;
    }

    /** The state the loading constructor leaves when it succeeds; what it reads
        from the model and class-names files is given as parameters. */
    constructor Loaded(width: int, height: int, names: seq<string>, inputs: nat, outputs: nat, softmax: bool)
      requires inputs >= 1 && outputs >= 1
      ensures State() == ModelState(true, width, height, names, inputs, outputs, softmax)
    {
      hasSession, inputWidth, inputHeight, classNames := true, width, height, names;
      inputNodesNum, outputNodesNum, useSoftmax := inputs, outputs, softmax;
    }

    /** The move constructor: takes over every field and leaves `other` as a
        default-constructed object. */
    constructor MoveFrom(other: Model)
      modifies other
      ensures State() == old(other.State())
      ensures other.State() == Uninitialized
    {
      hasSession, inputWidth, inputHeight, classNames := other.hasSession, other.inputWidth, other.inputHeight, other.classNames;
      inputNodesNum, outputNodesNum, useSoftmax := other.inputNodesNum, other.outputNodesNum, other.useSoftmax;
      new;
      other.hasSession, other.classNames := false, [];
      other.inputWidth, other.inputHeight := 0, 0;
      other.inputNodesNum, other.outputNodesNum := 0, 0;
      other.useSoftmax := false;
    }

    /** Move assignment: as the move constructor, except that assigning an
        object to itself changes nothing. */
    method MoveAssign(other: Model)
      modifies this, other
      ensures other == this ==> State() == old(State())
      ensures other != this ==> State() == old(other.State()) && other.State() == Uninitialized
    {
      if other != this {
        hasSession, inputWidth, inputHeight, classNames := other.hasSession, other.inputWidth, other.inputHeight, other.classNames;
        inputNodesNum, outputNodesNum, useSoftmax := other.inputNodesNum, other.outputNodesNum, other.useSoftmax;
        other.hasSession, other.classNames := false, [];
        other.inputWidth, other.inputHeight := 0, 0;
        other.inputNodesNum, other.outputNodesNum := 0, 0;
        other.useSoftmax := false;
      }
    }

    /** `predict` after inference: fails before anything else without a session;
        otherwise the top `k` scores, best first, with their class names.
        `scores` is the session's output, already passed through softmax when
        `useSoftmax` is set. */
    method Predict(scores: seq<real>, k: nat) returns (r: Result<seq<Prediction>, string>)
      ensures !hasSession <==> r.Err?
      ensures !hasSession ==> r == Err("The model is not initialized.")
      ensures r.Ok? ==> exists top :: IsTopK(scores, k, top) && r.value == Labels(classNames, top)
    {
      if !hasSession {
        return Err("The model is not initialized.");
      }
      var top := SelectTopK(scores, k);
      var predictions := [];
      var i := 0;
      while i < |top|
        invariant 0 <= i <= |top|
        invariant predictions == Labels(classNames, top[..i])
      {
        predictions := predictions + [Prediction(ClassLabel(classNames, top[i].index), top[i].score)];
        i := i + 1;
      }
      assert top[..i] == top;
      r := Ok(predictions);
    }
  }

  /** What a caller of `predict` may rely on, stated over the predictions alone:
      exactly `min(k, n)` of them, by non-increasing confidence, each the score
      of some class. */
  lemma PredictionsShape(scores: seq<real>, k: nat, classNames: seq<string>, top: seq<IndexedScore>)
    requires IsTopK(scores, k, top)
    ensures var r := Labels(classNames, top);
      && |r| == Min(k, |scores|)
      && (forall i, j :: 0 <= i < j < |r| ==> r[i].confidence >= r[j].confidence)
      && (forall j :: 0 <= j < |r| ==> r[j].confidence in scores)
      && (scores == [] ==> r == [])
  {
    var r := Labels(classNames, top);
    forall j | 0 <= j < |r| ensures r[j].confidence in scores {
      assert r[j].confidence == scores[top[j].index];
    }
  }
}
