/**
  The composition name of an uploaded structure (`Upload.get_system_name`):
  each element of the sites once, in order of first appearance, followed by
  how many sites it occupies, with the count left out when it is 1.
 */
module Naming {
  import opened Wrappers
  import opened Builtins
  import opened Structures

  /** What the user sees when the structure cannot be read. */
  const Unreadable := "File could not be read."

  /**
    The second slot of a `[element, count]` pair: the count, or the empty
    string the second loop writes over a count of 1.
   */
  datatype Cell = Num(n: nat) | Blank

  datatype Tally = Tally(element: string, count: Cell)

  // ---------------------------------------------------------------------
  // The steps of get_system_name, as the source writes them
  // ---------------------------------------------------------------------

  /**
    The element of the first species of each site, in site order
    (web/uploader/models.py:36). A site without species makes the source
    raise IndexError (None here).
   */
  function Elements(structure: Structure): (r: Option<seq<string>>)
    ensures r.Some? <==> forall i :: 0 <= i < |structure.sites| ==> structure.sites[i].species != []
    ensures r.Some? ==> |r.value| == |structure.sites|
    ensures r.Some? ==> forall i :: 0 <= i < |structure.sites| ==> r.value[i] == structure.sites[i].species[0]
  {
    var sites := structure.sites;
    if exists i :: 0 <= i < |sites| && sites[i].species == [] then None
    else Some(seq(|sites|, i requires 0 <= i < |sites| => sites[i].species[0]))
  }

  /** How many sites carry element `e` (web/uploader/models.py:37). */
  function Occurrences(elements: seq<string>, e: string): nat {
    multiset(elements)[e]
  }

  /** One pair per site: its element and that element's total count (web/uploader/models.py:37). */
  function Counts(elements: seq<string>): seq<Tally> {
    seq(|elements|, i requires 0 <= i < |elements| =>
      Tally(elements[i], Num(Occurrences(elements, elements[i]))))
  }

  /** The list the first loop builds: each pair appended unless an equal pair is already in it. */
  function DedupTallies(ts: seq<Tally>): seq<Tally> {
    if ts == [] then []
    else
      var seen := DedupTallies(ts[..|ts| - 1]);
      if ts[|ts| - 1] in seen then seen else seen + [ts[|ts| - 1]]
  }

  /** What the second loop makes of one pair: a count of 1 becomes ''. */
  function Blanked(t: Tally): Tally {
    if t.count == Num(1) then Tally(t.element, Blank) else t
  }

  /** The text of a pair's second slot: the count's decimal digits, or nothing once blanked (web/uploader/models.py:45). */
  function CellText(c: Cell): string {
    match c
    case Num(n) => DecimalString(n)
    case Blank => ""
  }

  /** Each pair rendered as its element followed by the text of its count (web/uploader/models.py:45). */
  function Rendered(ts: seq<Tally>): seq<string> {
    seq(|ts|, k requires 0 <= k < |ts| => ts[k].element + CellText(ts[k].count))
  }

  /** `''.join(parts)`. */
  function Concat(parts: seq<string>): string {
    if parts == [] then "" else parts[0] + Concat(parts[1..])
  }

  // ---------------------------------------------------------------------
  // The name, stated over elements
  // ---------------------------------------------------------------------

  /** The distinct elements, in order of first appearance. */
  function FirstOccurrences(elements: seq<string>): seq<string> {
    if elements == [] then []
    else
      var seen := FirstOccurrences(elements[..|elements| - 1]);
      var e := elements[|elements| - 1];
      if e in seen then seen else seen + [e]
  }

  /** What follows an element occurring n times: nothing for 1, else the digits of n. */
  function Numeral(n: nat): string {
    if n == 1 then "" else DecimalString(n)
  }

  /** One element's part of the name. */
  function Chunk(elements: seq<string>, e: string): string {
    e + Numeral(Occurrences(elements, e))
  }

  /** The composition name of a list of site elements. */
  function Formula(elements: seq<string>): string {
    var distinct := FirstOccurrences(elements);
    Concat(seq(|distinct|, i requires 0 <= i < |distinct| => Chunk(elements, distinct[i])))
  }

  /** The index of the first occurrence of `e`. */
  function FirstIndex(elements: seq<string>, e: string): (k: nat)
    requires e in elements
    ensures k < |elements| && elements[k] == e
    ensures forall j :: 0 <= j < k ==> elements[j] != e
  {
    if elements[0] == e then 0 else 1 + FirstIndex(elements[1..], e)
  }

  /** The pair each distinct element ends up with after the first loop. */
  function Tallies(distinct: seq<string>, elements: seq<string>): seq<Tally> {
    seq(|distinct|, i requires 0 <= i < |distinct| =>
      Tally(distinct[i], Num(Occurrences(elements, distinct[i]))))
  }

  // ---------------------------------------------------------------------
  // get_system_name
  // ---------------------------------------------------------------------

  method SystemName(file: Option<Structure>) returns (name: string)
    ensures file.None? ==> name == Unreadable
    ensures file.Some? && Elements(file.value).None? ==> name == Unreadable
    ensures file.Some? && Elements(file.value).Some? ==> name == Formula(Elements(file.value).value)
  {
    if file.None? {
      return Unreadable;
    }
    var extracted := Elements(file.value);
    if extracted.None? {
      return Unreadable;
    }
    var elements := extracted.value;
    var counts := Counts(elements);

    var nameScheme: seq<Tally> := [];
    for i := 0 to |counts|
      invariant nameScheme == DedupTallies(counts[..i])
    {
      assert counts[..i + 1][..i] == counts[..i];
      if counts[i] !in nameScheme {
        nameScheme := nameScheme + [counts[i]];
      }
    }
    assert counts[..|counts|] == counts;
    DedupCounts(elements);
    ghost var firstPass := nameScheme;

    for i := 0 to |nameScheme|
      invariant |nameScheme| == |firstPass|
      invariant forall k :: 0 <= k < i ==> nameScheme[k] == Blanked(firstPass[k])
      invariant forall k :: i <= k < |nameScheme| ==> nameScheme[k] == firstPass[k]
    {
      if nameScheme[i].count == Num(1) {
        nameScheme := nameScheme[i := Tally(nameScheme[i].element, Blank)];
      }
    }

    name := Concat(Rendered(nameScheme));
    RenderedBlanked(elements, nameScheme);
  }

  // ---------------------------------------------------------------------
  // Lemmas
  // ---------------------------------------------------------------------

  lemma {:induction false} FirstOccurrencesMembers(elements: seq<string>)
    ensures forall e :: e in FirstOccurrences(elements) <==> e in elements
  {
    if elements != [] {
      var init := elements[..|elements| - 1];
      FirstOccurrencesMembers(init);
      assert elements == init + [elements[|elements| - 1]];
    }
  }

  /** The first loop keeps the pair of each distinct element once, in order of first appearance. */
  lemma {:induction false} DedupPrefix(elements: seq<string>, k: nat)
    requires k <= |elements|
    ensures DedupTallies(Counts(elements)[..k]) == Tallies(FirstOccurrences(elements[..k]), elements)
  {
    if k > 0 {
      DedupPrefix(elements, k - 1);
      var ts := Counts(elements)[..k];
      assert ts[..k - 1] == Counts(elements)[..k - 1];
      assert elements[..k][..k - 1] == elements[..k - 1];
      var seen := FirstOccurrences(elements[..k - 1]);
      var e := elements[k - 1];
      FirstOccurrencesMembers(elements[..k - 1]);
      var t := Tally(e, Num(Occurrences(elements, e)));
      assert ts[k - 1] == t;
      if e in seen {
        var i :| 0 <= i < |seen| && seen[i] == e;
        assert Tallies(seen, elements)[i] == t;
      }
      if t in Tallies(seen, elements) {
        var i :| 0 <= i < |seen| && Tallies(seen, elements)[i] == t;
        assert seen[i] == e;
      }
      if e !in seen {
        assert Tallies(seen + [e], elements) == Tallies(seen, elements) + [t];
      }
    }
  }

  lemma DedupCounts(elements: seq<string>)
    ensures DedupTallies(Counts(elements)) == Tallies(FirstOccurrences(elements), elements)
  {
    DedupPrefix(elements, |elements|);
    assert Counts(elements)[..|elements|] == Counts(elements);
    assert elements[..|elements|] == elements;
  }

  /** Rendering the pairs after the second loop gives each element's chunk of the name. */
  lemma RenderedBlanked(elements: seq<string>, ts: seq<Tally>)
    requires var tallies := Tallies(FirstOccurrences(elements), elements);
      |ts| == |tallies| && forall k :: 0 <= k < |ts| ==> ts[k] == Blanked(tallies[k])
    ensures Concat(Rendered(ts)) == Formula(elements)
  {
    var distinct := FirstOccurrences(elements);
    var chunks := seq(|distinct|, i requires 0 <= i < |distinct| => Chunk(elements, distinct[i]));
    forall k | 0 <= k < |ts|
      ensures Rendered(ts)[k] == chunks[k]
    {
      assert Tallies(distinct, elements)[k] == Tally(distinct[k], Num(Occurrences(elements, distinct[k])));
    }
    assert Rendered(ts) == chunks;
  }

  /** Every distinct element is listed exactly once. */
  lemma {:induction false} FirstOccurrencesDistinct(elements: seq<string>)
    ensures forall i, j :: 0 <= i < j < |FirstOccurrences(elements)| ==>
      FirstOccurrences(elements)[i] != FirstOccurrences(elements)[j]
  {
    if elements != [] {
      FirstOccurrencesDistinct(elements[..|elements| - 1]);
    }
  }

  lemma {:induction false} FirstIndexExtend(init: seq<string>, e: string, x: string)
    requires x in init
    ensures FirstIndex(init + [e], x) == FirstIndex(init, x)
  {
    if init[0] != x {
      assert (init + [e])[1..] == init[1..] + [e];
      FirstIndexExtend(init[1..], e, x);
    }
  }

  /** `distinct` lists elements of `elements` in the order of their first occurrence. */
  predicate InFirstSeenOrder(elements: seq<string>, distinct: seq<string>) {
    forall i, j :: 0 <= i < j < |distinct| ==>
      distinct[i] in elements && distinct[j] in elements &&
      FirstIndex(elements, distinct[i]) < FirstIndex(elements, distinct[j])
  }

  lemma OrderedStep(init: seq<string>, e: string, seen: seq<string>, i: nat, j: nat)
    requires seen == FirstOccurrences(init)
    requires forall x :: x in seen <==> x in init
    requires InFirstSeenOrder(init, seen)
    requires i < j < |if e in seen then seen else seen + [e]|
    ensures var distinct := if e in seen then seen else seen + [e];
      FirstIndex(init + [e], distinct[i]) < FirstIndex(init + [e], distinct[j])
  {
    FirstIndexExtend(init, e, seen[i]);
    if j < |seen| {
      FirstIndexExtend(init, e, seen[j]);
    } else {
      assert FirstIndex(init + [e], e) == |init|;
    }
  }

  /** The distinct elements are listed in the order of their first site. */
  lemma {:induction false} FirstOccurrencesOrdered(elements: seq<string>)
    ensures InFirstSeenOrder(elements, FirstOccurrences(elements))
  {
    var distinct := FirstOccurrences(elements);
    FirstOccurrencesMembers(elements);
    if elements != [] {
      var init := elements[..|elements| - 1];
      var e := elements[|elements| - 1];
      assert elements == init + [e];
      FirstOccurrencesOrdered(init);
      FirstOccurrencesMembers(init);
      var seen := FirstOccurrences(init);
      assert InFirstSeenOrder(init, seen);
      assert distinct == if e in seen then seen else seen + [e];
      forall i, j | 0 <= i < j < |distinct|
        ensures FirstIndex(elements, distinct[i]) < FirstIndex(elements, distinct[j])
      {
        OrderedStep(init, e, seen, i, j);
      }
    }
  }

  /** A count of 1 leaves no numeral; any larger count leaves its decimal digits. */
  lemma NumeralSpec(n: nat)
    requires n >= 1
    ensures Numeral(n) == "" <==> n == 1
    ensures n >= 2 ==> Canonical(Numeral(n)) && DecimalValue(Numeral(n)) == n
  {
    if n >= 2 {
      DecimalRoundTrip(n);
    }
  }

  lemma FirstOccurrencesFe2O()
    ensures FirstOccurrences(["Fe", "Fe", "O"]) == ["Fe", "O"]
  {
    var fe2o := ["Fe", "Fe", "O"];
    assert fe2o[..2] == ["Fe", "Fe"] && fe2o[..2][..1] == ["Fe"] && ["Fe"][..0] == [];
    assert FirstOccurrences(["Fe"]) == ["Fe"];
    assert FirstOccurrences(["Fe", "Fe"]) == ["Fe"];
  }

  /** Sites Fe, Fe, O are named "Fe2O". */
  lemma FormulaFe2O()
    ensures Formula(["Fe", "Fe", "O"]) == "Fe2O"
  {
    var fe2o := ["Fe", "Fe", "O"];
    FirstOccurrencesFe2O();
    assert multiset(fe2o)["Fe"] == 2 && multiset(fe2o)["O"] == 1;
    assert DecimalString(2) == "2";
    assert Chunk(fe2o, "Fe") == "Fe2" && Chunk(fe2o, "O") == "O";
    var chunks := ["Fe2", "O"];
    assert seq(2, i requires 0 <= i < 2 => Chunk(fe2o, ["Fe", "O"][i])) == chunks;
    assert chunks[1..] == ["O"] && ["O"][1..] == [];
    assert Concat(chunks) == "Fe2O";
  }

  /** A single Cu site is named "Cu", with no numeral. */
  lemma FormulaCu()
    ensures Formula(["Cu"]) == "Cu"
  {
    assert ["Cu"][..0] == [];
    assert FirstOccurrences(["Cu"]) == ["Cu"];
    assert multiset(["Cu"])["Cu"] == 1;
    assert Occurrences(["Cu"], "Cu") == 1 && Chunk(["Cu"], "Cu") == "Cu";
    assert seq(1, i requires 0 <= i < 1 => Chunk(["Cu"], ["Cu"][i])) == ["Cu"];
    assert ["Cu"][1..] == [];
    assert Concat(["Cu"]) == "Cu";
  }
}
