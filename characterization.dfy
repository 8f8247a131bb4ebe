/**
  `Upload.get_electronic_characterization` and
  `Upload.get_topological_characterization`: the branching between the
  metal/insulator classifier, the band-gap regressor and the topology
  classifier, the result strings, and the recovery of the gap from the
  electronic result.

  The featurizer and the three trained models are opaque and deterministic:
  they are fields of `Artifacts`, given as functions. Every call the
  uploader makes to them is recorded, in order, in the `calls` of a `Run`.
 */
module Characterization {
  import opened Wrappers
  import opened Builtins
  import opened Structures
  import opened Frames

  /**
    The artifacts loaded once at start-up. The regressor's prediction is
    given as the gap rounded to hundredths of an eV, which is what
    `'%0.2f'` prints of it.
   */
  datatype Artifacts = Artifacts(
    featurizer: Structure -> Row,
    classifier: Row -> int,
    featuresToKeep: seq<string>,
    regressor: Row -> int,
    regFeaturesToKeep: seq<string>,
    topology: Row -> int,
    topFeaturesToKeep: seq<string>)

  /** A call into the featurizer or one of the trained models, with the row it was given. */
  datatype Call = Featurize | Classify(input: Row) | Regress(input: Row) | ClassifyTopology(input: Row)

  /** The string shown to the user and the calls made to produce it. */
  datatype Run = Run(text: string, calls: seq<Call>)

  /**
    Exceptions that escape a characterization: the structure file cannot be
    read, or the electronic result has no gap where the topology step looks.
   */
  datatype Failure = UnreadableFile | MalformedElectronic

  const Metal := "metal"
  const Trivial := "trivial"
  const NonTrivial := "non-trivial"
  const GapColumn := "gap pbe"

  /** `'insulator with Δ = %0.2f eV'` with the formatted gap put in. */
  function InsulatorText(gap: string): string {
    "insulator with \U{0394} = " + gap + " eV"
  }

  /** get_electronic_characterization. */
  function Electronic(art: Artifacts, file: Option<Structure>): Result<Run, Failure> {
    match file
    case None => Err(UnreadableFile)
    case Some(structure) =>
      var table := art.featurizer(structure);
      var forClassifier := Retain(table, art.featuresToKeep);
      if art.classifier(forClassifier) == 1 then
        var forRegressor := Retain(table, art.regFeaturesToKeep);
        var gap := art.regressor(forRegressor);
        Ok(Run(InsulatorText(FixedTwo(gap)), [Featurize, Classify(forClassifier), Regress(forRegressor)]))
      else
        Ok(Run(Metal, [Featurize, Classify(forClassifier)]))
  }

  /**
    The gap the topology step reads back from an electronic result: 0 for a
    string starting with 'm', else the number written in the second-to-last
    whitespace-separated word (web/uploader/models.py:69-72). An empty
    string, fewer than two words, or a word that is no number makes the
    source raise (None here).
   */
  function RecoverGap(electronic: string): Option<real> {
    if electronic == [] then None
    else if electronic[0] == 'm' then Some(0.0)
    else
      var words := Split(electronic);
      if |words| < 2 then None else ParseFloat(words[|words| - 2])
  }

  /** get_topological_characterization. */
  function Topological(art: Artifacts, file: Option<Structure>): Result<Run, Failure> {
    match file
    case None => Err(UnreadableFile)
    case Some(structure) =>
      match Electronic(art, file)
      case Err(e) => Err(e)
      case Ok(electronic) =>
        match RecoverGap(electronic.text)
        case None => Err(MalformedElectronic)
        case Some(gap) =>
          var table := art.featurizer(structure);
          var forTopology := SetColumn(Retain(table, art.topFeaturesToKeep), GapColumn, gap);
          var verdict := if art.topology(forTopology) == 0 then Trivial else NonTrivial;
          Ok(Run(verdict, electronic.calls + [Featurize, ClassifyTopology(forTopology)]))
  }

  // ---------------------------------------------------------------------
  // Specification helpers
  // ---------------------------------------------------------------------

  /** The gap the models predict for a structure: the regressor's for an insulator, 0 for a metal. */
  function PredictedGap(art: Artifacts, structure: Structure): real {
    var table := art.featurizer(structure);
    if art.classifier(Retain(table, art.featuresToKeep)) == 1 then
      art.regressor(Retain(table, art.regFeaturesToKeep)) as real / 100.0
    else 0.0
  }

  predicate IsRegress(c: Call) {
    c.Regress?
  }

  predicate IsFeaturize(c: Call) {
    c.Featurize?
  }

  /** How many of the calls satisfy `p`. */
  function CountCalls(calls: seq<Call>, p: Call -> bool): nat {
    if calls == [] then 0 else (if p(calls[0]) then 1 else 0) + CountCalls(calls[1..], p)
  }

  lemma {:induction false} CountCallsAppend(a: seq<Call>, b: seq<Call>, p: Call -> bool)
    ensures CountCalls(a + b, p) == CountCalls(a, p) + CountCalls(b, p)
  {
    if a != [] {
      assert (a + b)[1..] == a[1..] + b;
      CountCallsAppend(a[1..], b, p);
    } else {
      assert a + b == b;
    }
  }

  lemma CountCallsPair(x: Call, y: Call, p: Call -> bool)
    ensures CountCalls([x, y], p) == (if p(x) then 1 else 0) + (if p(y) then 1 else 0)
  {
    assert [x, y][1..] == [y] && [y][1..] == [];
    assert CountCalls([y], p) == (if p(y) then 1 else 0) + CountCalls([], p);
  }

  // ---------------------------------------------------------------------
  // Lemmas
  // ---------------------------------------------------------------------

  /** The insulator string splits into six words, the formatted gap second to last. */
  lemma InsulatorWords(gap: string)
    requires gap != [] && NoSpace(gap)
    ensures Split(InsulatorText(gap)) == ["insulator", "with", "\U{0394}", "=", gap, "eV"]
  {
    var words := ["insulator", "with", "\U{0394}", "=", gap, "eV"];
    assert JoinWords(words[5..]) == "eV";
    assert JoinWords(words[4..]) == gap + " eV" by { assert words[4..][1..] == words[5..]; }
    assert JoinWords(words[3..]) == "= " + gap + " eV" by { assert words[3..][1..] == words[4..]; }
    assert JoinWords(words[2..]) == "\U{0394} = " + gap + " eV" by { assert words[2..][1..] == words[3..]; }
    assert JoinWords(words[1..]) == "with \U{0394} = " + gap + " eV" by { assert words[1..][1..] == words[2..]; }
    assert JoinWords(words) == InsulatorText(gap);
    SplitJoin(words);
  }

  /** No insulator string starts with 'm', so it is never taken for "metal". */
  lemma InsulatorIsNotMetal(gap: string)
    ensures InsulatorText(gap) != [] && InsulatorText(gap)[0] == 'i'
    ensures InsulatorText(gap) != Metal
  {
    assert Metal[0] == 'm';
  }

  /** Reading the gap back from either electronic result gives the gap that was put in. */
  lemma GapRoundTrip(h: int)
    ensures RecoverGap(InsulatorText(FixedTwo(h))) == Some(h as real / 100.0)
    ensures RecoverGap(Metal) == Some(0.0)
  {
    InsulatorWords(FixedTwo(h));
    FixedTwoRoundTrip(h);
  }

  /** The gap read back from either electronic result, given the two predictions behind it. */
  lemma GapOfPredictions(c: int, h: int, text: string, gap: real)
    requires text == (if c == 1 then InsulatorText(FixedTwo(h)) else Metal)
    requires gap == (if c == 1 then h as real / 100.0 else 0.0)
    ensures RecoverGap(text) == Some(gap)
  {
    GapRoundTrip(h);
  }

  /** A metal result is exactly "metal", the regressor is never called and cannot matter. */
  lemma ElectronicMetal(art: Artifacts, structure: Structure, otherRegressor: Row -> int)
    requires art.classifier(Retain(art.featurizer(structure), art.featuresToKeep)) != 1
    ensures Electronic(art, Some(structure)).Ok?
    ensures Electronic(art, Some(structure)).value.text == Metal
    ensures CountCalls(Electronic(art, Some(structure)).value.calls, IsRegress) == 0
    ensures Electronic(art.(regressor := otherRegressor), Some(structure)) == Electronic(art, Some(structure))
  {
    var table := art.featurizer(structure);
    CountCallsPair(Featurize, Classify(Retain(table, art.featuresToKeep)), IsRegress);
  }

  /**
    An insulator result carries the regressor's gap, the regressor is called
    exactly once, and what it sees are the full table's columns that its own
    list keeps, whatever the classifier's list is.
   */
  lemma ElectronicInsulator(art: Artifacts, structure: Structure)
    requires art.classifier(Retain(art.featurizer(structure), art.featuresToKeep)) == 1
    ensures var table := art.featurizer(structure);
      var forRegressor := Retain(table, art.regFeaturesToKeep);
      && Electronic(art, Some(structure)).Ok?
      && Electronic(art, Some(structure)).value.text == InsulatorText(FixedTwo(art.regressor(forRegressor)))
      && CountCalls(Electronic(art, Some(structure)).value.calls, IsRegress) == 1
      && Regress(forRegressor) in Electronic(art, Some(structure)).value.calls
      && forRegressor == Filter(table, art.regFeaturesToKeep)
      && (forall c :: c in forRegressor <==> c in table && c.name in art.regFeaturesToKeep)
  {
    var table := art.featurizer(structure);
    var forClassifier := Retain(table, art.featuresToKeep);
    var forRegressor := Retain(table, art.regFeaturesToKeep);
    RetainIsFilter(table, art.regFeaturesToKeep);
    FilterMembers(table, art.regFeaturesToKeep);
    CountCallsPair(Featurize, Classify(forClassifier), IsRegress);
    CountCallsAppend([Featurize, Classify(forClassifier)], [Regress(forRegressor)], IsRegress);
    assert [Featurize, Classify(forClassifier)] + [Regress(forRegressor)]
      == [Featurize, Classify(forClassifier), Regress(forRegressor)];
  }

  /** The first-character test of the topology step (web/uploader/models.py:69) tells the two electronic results apart exactly. */
  lemma ElectronicSeparates(art: Artifacts, structure: Structure)
    ensures Electronic(art, Some(structure)).Ok?
    ensures Electronic(art, Some(structure)).value.text != []
    ensures Electronic(art, Some(structure)).value.text[0] == 'm' <==> Electronic(art, Some(structure)).value.text == Metal
  {
    var table := art.featurizer(structure);
    if art.classifier(Retain(table, art.featuresToKeep)) == 1 {
      InsulatorIsNotMetal(FixedTwo(art.regressor(Retain(table, art.regFeaturesToKeep))));
    }
  }

  /** The gap the topology step reads back from the electronic result is the predicted gap. */
  lemma ElectronicGapRecovered(art: Artifacts, structure: Structure)
    ensures Electronic(art, Some(structure)).Ok?
    ensures RecoverGap(Electronic(art, Some(structure)).value.text) == Some(PredictedGap(art, structure))
  {
    GapOfPredictions(art.classifier(Retain(art.featurizer(structure), art.featuresToKeep)),
      art.regressor(Retain(art.featurizer(structure), art.regFeaturesToKeep)),
      Electronic(art, Some(structure)).value.text, PredictedGap(art, structure));
  }

  /**
    The topology step never fails on the electronic string; the row given to
    the topology classifier is the full table's columns its list keeps, with
    'gap pbe' set to the predicted gap; 0 reads "trivial", anything else
    "non-trivial".
   */
  lemma TopologicalSpec(art: Artifacts, structure: Structure)
    ensures var table := art.featurizer(structure);
      var row := SetColumn(Filter(table, art.topFeaturesToKeep), GapColumn, PredictedGap(art, structure));
      var electronic := Electronic(art, Some(structure)).value;
      && Topological(art, Some(structure)).Ok?
      && Topological(art, Some(structure)).value.calls == electronic.calls + [Featurize, ClassifyTopology(row)]
      && (Topological(art, Some(structure)).value.text == Trivial <==> art.topology(row) == 0)
      && (Topological(art, Some(structure)).value.text == NonTrivial <==> art.topology(row) != 0)
  {
    ElectronicGapRecovered(art, structure);
    RetainIsFilter(art.featurizer(structure), art.topFeaturesToKeep);
  }

  /** What the topology classifier sees: kept columns of the full table and the gap column. */
  lemma TopologyInput(art: Artifacts, structure: Structure)
    ensures var table := art.featurizer(structure);
      var gap := PredictedGap(art, structure);
      var row := SetColumn(Filter(table, art.topFeaturesToKeep), GapColumn, gap);
      && Column(GapColumn, gap) in row
      && (forall c :: c in row ==> (c.name == GapColumn && c.value == gap) || (c in table && c.name in art.topFeaturesToKeep))
      && (forall c :: c in table && c.name in art.topFeaturesToKeep && c.name != GapColumn ==> c in row)
  {
    var table := art.featurizer(structure);
    var gap := PredictedGap(art, structure);
    var kept := Filter(table, art.topFeaturesToKeep);
    var row := SetColumn(kept, GapColumn, gap);
    FilterMembers(table, art.topFeaturesToKeep);
    SetColumnSpec(kept, GapColumn, gap);
    forall c | c in row
      ensures (c.name == GapColumn && c.value == gap) || (c in table && c.name in art.topFeaturesToKeep)
    {
      var i :| 0 <= i < |row| && row[i] == c;
      if i < |kept| && kept[i].name != GapColumn {
        assert c == kept[i];
      }
    }
    forall c | c in kept && c.name != GapColumn
      ensures c in row
    {
      var i :| 0 <= i < |kept| && kept[i] == c;
      assert row[i] == c;
    }
  }

  /** An unreadable file fails both characterizations. */
  lemma UnreadableFails(art: Artifacts)
    ensures Electronic(art, None) == Err(UnreadableFile)
    ensures Topological(art, None) == Err(UnreadableFile)
  {
  }

  /** The topology step featurizes the structure a second time rather than reuse the first table. */
  lemma TopologicalFeaturizesTwice(art: Artifacts, structure: Structure)
    ensures Topological(art, Some(structure)).Ok?
    ensures CountCalls(Topological(art, Some(structure)).value.calls, IsFeaturize) == 2
  {
    var table := art.featurizer(structure);
    var forClassifier := Retain(table, art.featuresToKeep);
    var forRegressor := Retain(table, art.regFeaturesToKeep);
    var row := SetColumn(Filter(table, art.topFeaturesToKeep), GapColumn, PredictedGap(art, structure));
    TopologicalSpec(art, structure);
    var electronic := Electronic(art, Some(structure)).value;
    CountCallsAppend(electronic.calls, [Featurize, ClassifyTopology(row)], IsFeaturize);
    CountCallsPair(Featurize, ClassifyTopology(row), IsFeaturize);
    CountCallsPair(Featurize, Classify(forClassifier), IsFeaturize);
    if art.classifier(forClassifier) == 1 {
      CountCallsAppend([Featurize, Classify(forClassifier)], [Regress(forRegressor)], IsFeaturize);
      assert [Featurize, Classify(forClassifier)] + [Regress(forRegressor)] == electronic.calls;
    }
  }
}
