/** The label codec (scikit-learn's `LabelEncoder`): category names such as
    "BENIGN" or "PortScan" against the dense integer codes the classifier
    is trained on and predicts, plus the per-label tally the upload page
    shows (`value_counts`). */
module Labels {
  import opened Common
  import opened Seqs
  import Text

  /** The category every non-attack row carries. */
  const Benign: string := "BENIGN"

  ghost predicate StrictlySorted(s: seq<string>) {
    forall i, j :: 0 <= i < j < |s| ==> Text.Below(s[i], s[j])
  }

  lemma SortedDistinct(s: seq<string>)
    requires StrictlySorted(s)
    ensures AllDistinct(s)
  {
    forall i, j | 0 <= i < j < |s| ensures s[i] != s[j] {
      Text.BelowIrreflexive(s[i]);
    }
  }

  /** Inserts `x` into a strictly sorted list unless it is already there. */
  function InsertSorted(s: seq<string>, x: string): (r: seq<string>)
    requires StrictlySorted(s)
    ensures StrictlySorted(r)
    ensures forall y :: y in r <==> y in s || y == x
  {
    if |s| == 0 then [x]
    else if x == s[0] then s
    else if Text.Below(x, s[0]) then
      assert StrictlySorted([x] + s) by {
        forall j | 0 <= j < |s| ensures Text.Below(x, s[j]) {
          if j > 0 {
            Text.BelowTransitive(x, s[0], s[j]);
          }
        }
      }
      [x] + s
    else
      var rest := InsertSorted(s[1..], x);
      assert StrictlySorted([s[0]] + rest) by {
        Text.BelowTotal(x, s[0]);
        forall j | 0 <= j < |rest| ensures Text.Below(s[0], rest[j]) {
          if rest[j] != x {
            assert rest[j] in rest;
            assert rest[j] in s[1..];
            var m :| 0 <= m < |s[1..]| && s[1..][m] == rest[j];
            assert s[m + 1] == rest[j];
          }
        }
      }
      [s[0]] + rest
  }

  /** `LabelEncoder.fit`: the classes are the distinct labels in ascending
      string order (what `numpy.unique` returns). */
  function FitClasses(labels: seq<string>): (classes: seq<string>)
    ensures StrictlySorted(classes)
    ensures forall y :: y in classes <==> y in labels
  {
    if |labels| == 0 then []
    else
      var init := labels[..|labels| - 1];
      var r := InsertSorted(FitClasses(init), labels[|labels| - 1]);
      assert forall y :: y in labels <==> y in init || y == labels[|labels| - 1] by {
        assert labels == init + [labels[|labels| - 1]];
      }
      r
  }

  /** `LabelEncoder.transform` of one label: its position among the classes;
      a label the encoder never saw has no code. */
  function Encode(classes: seq<string>, name: string): (code: Option<nat>)
    ensures code.Some? <==> name in classes
    ensures code.Some? ==> code.value < |classes| && classes[code.value] == name
  {
    IndexOf(classes, name)
  }

  /** `LabelEncoder.inverse_transform` of one code: the class at that
      position, or the unseen-label error for a code outside the classes. */
  function Decode(classes: seq<string>, code: int): (r: Result<string>)
    ensures r.Ok? <==> 0 <= code < |classes|
    ensures r.Ok? ==> r.value in classes
    ensures r.Err? ==> r.error == UnseenLabelCode(code)
  {
    if 0 <= code < |classes| then Ok(classes[code]) else Err(UnseenLabelCode(code))
  }

  /** Decoding and encoding are inverse to each other on a codec whose
      classes are distinct (which `FitClasses` guarantees). */
  lemma CodecRoundTrip(classes: seq<string>, code: int, name: string)
    requires AllDistinct(classes)
    ensures Decode(classes, code) == Ok(name) <==> Encode(classes, name) == Some(code)
  {
    if Decode(classes, code) == Ok(name) {
      IndexOfDistinct(classes, code);
    }
  }

  /** `inverse_transform` of a whole prediction vector: it fails as a whole
      if any code is unseen, otherwise it yields one label per code. */
  function DecodeAll(classes: seq<string>, codes: seq<int>): (r: Result<seq<string>>)
    ensures r.Ok? <==> forall i :: 0 <= i < |codes| ==> 0 <= codes[i] < |classes|
    ensures r.Ok? ==> |r.value| == |codes|
    ensures r.Ok? ==> forall i :: 0 <= i < |codes| ==> Decode(classes, codes[i]) == Ok(r.value[i])
    ensures r.Err? ==> exists i :: 0 <= i < |codes| && r.error == UnseenLabelCode(codes[i]) && !(0 <= codes[i] < |classes|)
  {
    if |codes| == 0 then Ok([])
    else
      var first :- Decode(classes, codes[0]);
      var rest :- DecodeAll(classes, codes[1..]);
      assert forall i :: 1 <= i < |codes| ==> codes[i] == codes[1..][i - 1];
      Ok([first] + rest)
  }

  /** `LabelEncoder.fit_transform`: fit the classes, then encode every label.
      Each label gets a code that decodes back to it. */
  function FitTransform(labels: seq<string>): (res: (seq<string>, seq<int>))
    ensures res.0 == FitClasses(labels)
    ensures |res.1| == |labels|
    ensures forall i :: 0 <= i < |labels| ==> Decode(res.0, res.1[i]) == Ok(labels[i])
  {
    var classes := FitClasses(labels);
    var codes := seq(|labels|, i requires 0 <= i < |labels| =>
      assert labels[i] in classes;
      Encode(classes, labels[i]).value as int);
    (classes, codes)
  }

  // ---------------------------------------------------------------------
  // `value_counts()`
  // ---------------------------------------------------------------------

  function CountsSum(d: seq<string>, s: seq<string>): nat {
    if |d| == 0 then 0 else Count(s, d[0]) + CountsSum(d[1..], s)
  }

  lemma {:induction false} CountsSumSnoc(d: seq<string>, y: string, s: seq<string>)
    ensures CountsSum(d + [y], s) == CountsSum(d, s) + Count(s, y)
  {
    if |d| > 0 {
      assert (d + [y])[1..] == d[1..] + [y];
      CountsSumSnoc(d[1..], y, s);
    }
  }

  lemma {:induction false} CountsSumAppend(d: seq<string>, s: seq<string>, x: string)
    requires AllDistinct(d)
    ensures CountsSum(d, s + [x]) == CountsSum(d, s) + (if x in d then 1 else 0)
  {
    if |d| > 0 {
      CountAppend(s, x, d[0]);
      CountsSumAppend(d[1..], s, x);
      assert x in d <==> x == d[0] || x in d[1..] by {
        assert d == [d[0]] + d[1..];
      }
    }
  }

  /** The tallies of the distinct labels add up to the number of labels. */
  lemma {:induction false} CountsSumTotal(s: seq<string>)
    ensures CountsSum(Distinct(s), s) == |s|
  {
    if |s| > 0 {
      var init := s[..|s| - 1];
      var x := s[|s| - 1];
      assert s == init + [x];
      CountsSumTotal(init);
      var d := Distinct(init);
      CountsSumAppend(d, init, x);
      if x !in d {
        CountsSumSnoc(d, x, s);
        CountAppend(init, x, x);
      }
    }
  }

  /** `df['Predicted Attack'].value_counts()`: one entry per distinct label
      with the number of rows carrying it; the entries account for every
      row exactly once. */
  function ValueCounts(labels: seq<string>): (vc: seq<(string, nat)>)
    ensures forall i :: 0 <= i < |vc| ==> vc[i].1 == Count(labels, vc[i].0) && vc[i].1 > 0
    ensures forall l :: l in labels <==> exists i :: 0 <= i < |vc| && vc[i].0 == l
    ensures forall i, j :: 0 <= i < j < |vc| ==> vc[i].0 != vc[j].0
    ensures TallySum(vc) == |labels|
  {
    var d := Distinct(labels);
    var vc := seq(|d|, i requires 0 <= i < |d| => (d[i], Count(labels, d[i])));
    assert TallySum(vc) == |labels| by {
      TallyIsCountsSum(d, labels);
      CountsSumTotal(labels);
    }
    forall l | l in d ensures exists i :: 0 <= i < |vc| && vc[i].0 == l {
      var i :| 0 <= i < |d| && d[i] == l;
      assert vc[i].0 == l;
    }
    vc
  }

  function TallySum(vc: seq<(string, nat)>): nat {
    if |vc| == 0 then 0 else vc[0].1 + TallySum(vc[1..])
  }

  lemma {:induction false} TallyIsCountsSum(d: seq<string>, s: seq<string>)
    ensures TallySum(seq(|d|, i requires 0 <= i < |d| => (d[i], Count(s, d[i])))) == CountsSum(d, s)
  {
    var vc := seq(|d|, i requires 0 <= i < |d| => (d[i], Count(s, d[i])));
    if |d| > 0 {
      var d' := d[1..];
      TallyIsCountsSum(d', s);
      assert vc[1..] == seq(|d'|, i requires 0 <= i < |d'| => (d'[i], Count(s, d'[i])));
    }
  }
}
