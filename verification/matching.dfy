/**
 * The match rule of the scan results panel (script.js, `UI.displayScanResults`):
 * how each classifier prediction becomes a displayed row, and which rows
 * offer an objective for salvage.
 */
module Matching {
  import opened Wrappers
  import opened Objectives

  /** A row is offered only when its rounded confidence is strictly above this percentage. */
  const Threshold: int := 40

  /**
   * One classifier prediction. `percent` is `Math.round(probability * 100)`,
   * taken as given.
   */
  datatype Prediction = Prediction(className: string, percent: int)

  /** A displayed row: the caption, the confidence, and the name of the objective it offers, if any. */
  datatype Row = Row(caption: string, percent: int, offer: Option<string>)

  /** The panel after a scan: the interference notice, or one row per prediction. */
  datatype Display = Interference | Listed(rows: seq<Row>)

  /**
   * `className.split(',')[0]`: the text before the first comma, or all of
   * it when there is none.
   */
  function Label(className: string): (caption: string)
    ensures caption <= className
    ensures ',' !in caption
    ensures |caption| < |className| ==> className[|caption|] == ','
  {
    if |className| == 0 || className[0] == ',' then ""
    else [className[0]] + Label(className[1..])
  }

  /** `word` stands in `text` starting at position `k`. */
  predicate OccursAt(text: string, word: string, k: nat) {
    k + |word| <= |text| && text[k..k + |word|] == word
  }

  /** `text.includes(word)`: case-sensitive substring search. */
  function Includes(text: string, word: string): (r: bool)
    ensures r <==> exists k: nat :: OccursAt(text, word, k)
  {
    if word <= text then
      assert OccursAt(text, word, 0);
      true
    else if |text| == 0 then
      false
    else
      IncludesShift(text, word);
      Includes(text[1..], word)
  }

  /** Searching past the first character finds exactly the occurrences that do not start at 0. */
  lemma IncludesShift(text: string, word: string)
    requires |text| > 0 && !(word <= text)
    ensures (exists k: nat :: OccursAt(text[1..], word, k)) <==> (exists k: nat :: OccursAt(text, word, k))
  {
    forall k: nat | OccursAt(text[1..], word, k)
      ensures OccursAt(text, word, k + 1)
    {
      assert text[k + 1..k + 1 + |word|] == text[1..][k..k + |word|];
    }
    forall k: nat | OccursAt(text, word, k)
      ensures k > 0 && OccursAt(text[1..], word, k - 1)
    {
      assert text[1..][k - 1..k - 1 + |word|] == text[k..k + |word|];
    }
  }

  /** The filter of the `find` at script.js:52: the caption contains the name, and the objective is open. */
  predicate Salvageable(o: Objective, caption: string) {
    Includes(caption, o.name) && !o.found
  }

  /**
   * The `find` of script.js:52, as the index of the objective it returns:
   * the first salvageable objective in list order, or `None`.
   */
  function FirstSalvageable(objs: seq<Objective>, caption: string): (r: Option<nat>)
    ensures r.Some? ==> r.value < |objs| && Salvageable(objs[r.value], caption)
    ensures r.Some? ==> forall j :: 0 <= j < r.value ==> !Salvageable(objs[j], caption)
    ensures r.None? <==> forall j :: 0 <= j < |objs| ==> !Salvageable(objs[j], caption)
  {
    if |objs| == 0 then None
    else if Salvageable(objs[0], caption) then Some(0)
    else match FirstSalvageable(objs[1..], caption)
      case None => None
      case Some(i) => Some(i + 1)
  }

  /**
   * The objective a row with this caption and confidence offers: the first
   * salvageable objective in list order, provided the confidence is above
   * the threshold.
   */
  function Offer(objs: seq<Objective>, caption: string, percent: int): (r: Option<nat>)
    ensures r.Some? <==> percent > Threshold && exists i :: 0 <= i < |objs| && Salvageable(objs[i], caption)
    ensures r.Some? ==> r.value < |objs| && Salvageable(objs[r.value], caption)
    ensures r.Some? ==> forall j :: 0 <= j < r.value ==> !Salvageable(objs[j], caption)
  {
    if percent > Threshold then FirstSalvageable(objs, caption) else None
  }

  /** The row displayed for one prediction, against the checklist as it stands. */
  function RowFor(objs: seq<Objective>, p: Prediction): (row: Row)
    ensures row.caption <= p.className && ',' !in row.caption
    ensures row.caption == Label(p.className)
    ensures row.percent == p.percent
    ensures row.offer == match Offer(objs, row.caption, p.percent)
      case None => None
      case Some(i) => Some(objs[i].name)
    ensures row.offer.Some? <==> Offer(objs, row.caption, p.percent).Some?
    ensures row.offer.Some? ==>
      exists i :: 0 <= i < |objs| && objs[i].name == row.offer.value && Salvageable(objs[i], row.caption)
  {
    var caption := Label(p.className);
    match Offer(objs, caption, p.percent)
    case None => Row(caption, p.percent, None)
    case Some(i) => Row(caption, p.percent, Some(objs[i].name))
  }

  /**
   * Fill the results panel: the interference notice for an empty result
   * list, otherwise one row per prediction, in order, each computed against
   * the checklist `objs`.
   */
  method DisplayScanResults(objs: seq<Objective>, results: seq<Prediction>) returns (d: Display)
    ensures d.Interference? <==> |results| == 0
    ensures d.Listed? ==> |d.rows| == |results|
    ensures d.Listed? ==> forall k :: 0 <= k < |results| ==> d.rows[k] == RowFor(objs, results[k])
  {
    if |results| == 0 {
      return Interference;
    }
    var rows: seq<Row> := [];
    for k := 0 to |results|
      invariant |rows| == k
      invariant forall j :: 0 <= j < k ==> rows[j] == RowFor(objs, results[j])
    {
      var confidence := results[k].percent;
      var caption := Label(results[k].className);
      var objective := FirstSalvageable(objs, caption);
      var offer: Option<string> := None;
      if objective.Some? && confidence > Threshold {
        offer := Some(objs[objective.value].name);
      }
      rows := rows + [Row(caption, confidence, offer)];
    }
    d := Listed(rows);
  }

  /** Once every objective is found, no row offers anything. */
  lemma NothingOfferedWhenComplete(objs: seq<Objective>, p: Prediction)
    requires AllFound(objs)
    ensures RowFor(objs, p).offer == None
  {
  }

  /** Only predictions above the threshold can be offered, whatever the checklist says. */
  lemma LowConfidenceNeverOffered(objs: seq<Objective>, p: Prediction)
    requires p.percent <= Threshold
    ensures RowFor(objs, p).offer == None
  {
  }

  /** The caption is determined by the first comma: any cut at the first comma is the caption. */
  lemma LabelIsTextBeforeFirstComma(className: string, n: nat)
    requires n <= |className| && ',' !in className[..n]
    requires n == |className| || className[n] == ','
    ensures Label(className) == className[..n]
  {
  }

  /** Against the starting checklist, "pop bottle, soda bottle" at 81% is shown as "pop bottle" and offers the bottle. */
  lemma BottleOffered(p: Prediction)
    requires p == Prediction("pop bottle, soda bottle", 81)
    ensures RowFor(Initial(), p) == Row("pop bottle", 81, Some("bottle"))
  {
    PopBottleCaption(p.className);
    PopBottleOffer(Label(p.className));
  }

  lemma PopBottleCaption(className: string)
    requires className == "pop bottle, soda bottle"
    ensures Label(className) == "pop bottle"
  {
    assert className[..10] == "pop bottle";
    LabelIsTextBeforeFirstComma(className, 10);
  }

  lemma PopBottleOffer(caption: string)
    requires caption == "pop bottle"
    ensures Offer(Initial(), caption, 81) == Some(0)
  {
    assert OccursAt(caption, "bottle", 4);
    assert Salvageable(Initial()[0], caption);
  }

  /**
   * A confident prediction whose class name is exactly an open objective's
   * comma-free name offers that objective, provided no earlier objective in
   * the checklist also matches it.
   */
  lemma ExactNameOffered(objs: seq<Objective>, i: nat, percent: int)
    requires i < |objs| && !objs[i].found && ',' !in objs[i].name && percent > Threshold
    requires forall j :: 0 <= j < i ==> !Salvageable(objs[j], objs[i].name)
    ensures RowFor(objs, Prediction(objs[i].name, percent)).offer == Some(objs[i].name)
  {
    var name := objs[i].name;
    LabelIsTextBeforeFirstComma(name, |name|);
    assert name[..|name|] == name;
    assert OccursAt(name, name, 0);
    assert Salvageable(objs[i], name);
    assert Offer(objs, name, percent) == Some(i);
  }

  /**
   * Against the starting checklist, a prediction at 90% whose class name is
   * exactly an objective's name ("bottle", "cup", "book") offers that objective.
   */
  lemma StartingNameOffered(i: nat)
    requires i < 3
    ensures RowFor(Initial(), Prediction(Initial()[i].name, 90)).offer == Some(Initial()[i].name)
  {
    var objs := Initial();
    if i == 2 {
      FirstLetterMissing(objs[2].name, objs[1].name);
    }
    ExactNameOffered(objs, i, 90);
  }

  /** The panel of a scan answering "bottle", "cup" and "book" at 90%, against the starting checklist, offers those three objectives in order. */
  lemma StartingRowsOffered(results: seq<Prediction>, d: Display)
    requires results == [Prediction("bottle", 90), Prediction("cup", 90), Prediction("book", 90)]
    requires d.Listed? && |d.rows| == 3
    requires forall k :: 0 <= k < 3 ==> d.rows[k] == RowFor(Initial(), results[k])
    ensures d.rows[0].offer == Some("bottle")
    ensures d.rows[1].offer == Some("cup")
    ensures d.rows[2].offer == Some("book")
  {
    StartingNameOffered(0);
    StartingNameOffered(1);
    StartingNameOffered(2);
  }

  /** A word whose first letter does not appear in the text is not included in it. */
  lemma FirstLetterMissing(text: string, word: string)
    requires |word| > 0 && word[0] !in text
    ensures !Includes(text, word)
  {
    forall k: nat | k + |word| <= |text|
      ensures !OccursAt(text, word, k)
    {
      assert text[k..k + |word|][0] == text[k];
    }
  }

  /** Matching is case-sensitive: "Cup" at 90% offers nothing against the starting checklist. */
  lemma CapitalisedCupNotOffered()
    ensures RowFor(Initial(), Prediction("Cup", 90)).offer == None
  {
  }
}
