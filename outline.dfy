/** Scenario outlines (gherkin/src/scenario_outline.rs): blocks of example
    rows under named placeholders, and the expansion of an outline into one
    concrete scenario per row. */
module Outline {
  import opened Wrappers
  import opened Text
  import opened DataTables
  import opened Document

  /** One `Examples:` block: its tags, the placeholder names of its header
      and its value rows. */
  datatype TaggedScenarios = TaggedScenarios(
    tags: seq<string>,
    placeholders: seq<string>,
    values: seq<seq<string>>)
  {
    /** `len()`: the number of value rows. */
    function Len(): nat {
      |values|
    }

    /** The invariant `new` establishes: every row has one cell per
        placeholder. */
    predicate WellFormed() {
      Rectangular(placeholders, values)
    }
  }

  /** `TaggedScenarios::new`: accepts the rows when all of them are exactly as
      wide as the placeholder list, and otherwise fails with an empty
      message. */
  function NewTaggedScenarios(tags: seq<string>, placeholders: seq<string>, values: seq<seq<string>>)
    : (r: Result<TaggedScenarios, string>)
    ensures r.Ok? <==> Rectangular(placeholders, values)
    ensures r.Ok? ==> r.value.tags == tags && r.value.placeholders == placeholders
                      && r.value.values == values && r.value.WellFormed()
    ensures r.Err? ==> r.error == ""
  {
    if AnyWidthDiffers(values, |placeholders|) then Err("")
    else Ok(TaggedScenarios(tags, placeholders, values))
  }

  /** The search of `index_of`, from position `from` on. */
  function IndexFrom(placeholders: seq<string>, p: string, from: nat): (r: Option<nat>)
    requires from <= |placeholders|
    ensures r.Some? ==> from <= r.value < |placeholders| && placeholders[r.value] == p
                        && forall j :: from <= j < r.value ==> placeholders[j] != p
    ensures r.None? <==> forall j :: from <= j < |placeholders| ==> placeholders[j] != p
    decreases |placeholders| - from
  {
    if from == |placeholders| then None
    else if placeholders[from] == p then Some(from)
    else IndexFrom(placeholders, p, from + 1)
  }

  /** `index_of`: the first position holding the placeholder, if any. */
  function IndexOf(b: TaggedScenarios, p: string): (r: Option<nat>)
    ensures r.Some? ==> r.value < |b.placeholders| && b.placeholders[r.value] == p
                        && forall j :: 0 <= j < r.value ==> b.placeholders[j] != p
    ensures r.None? <==> p !in b.placeholders
  {
    IndexFrom(b.placeholders, p, 0)
  }

  datatype ScenarioOutline = ScenarioOutline(
    tags: seq<string>,
    name: Option<string>,
    description: Option<string>,
    steps: seq<Step>,
    scenarios: seq<TaggedScenarios>)
  {
    /** The outline can only hold blocks built by `TaggedScenarios::new`. */
    predicate WellFormed() {
      forall k :: 0 <= k < |scenarios| ==> scenarios[k].WellFormed()
    }
  }

  /** The text `<name>` a placeholder is written as. */
  function Marker(placeholder: string): (m: string)
    ensures |m| == |placeholder| + 2 && m[0] == '<' && m[|m| - 1] == '>'
  {
    "<" + placeholder + ">"
  }

  /** `StepData::replace` on a doc-string: every occurrence is replaced. A
      data table is left as it is. */
  function ReplaceData(data: StepData, from: string, to: string): StepData
    requires from != []
  {
    match data
    case DocString(text) => DocString(Replace(text, from, to))
    case DataTable(_) => data
  }

  /** One round of the `for_each`: the `k`th placeholder replaced by the
      `k`th cell in the description and in the attached data. */
  function ReplaceInStep(step: Step, from: string, to: string): (r: Step)
    requires from != []
    ensures r.ty == step.ty && r.data.Some? == step.data.Some?
  {
    Step(step.ty, Replace(step.description, from, to),
         if step.data.Some? then Some(ReplaceData(step.data.value, from, to)) else None)
  }

  /** The `for_each` over `row.iter().enumerate()` as a left fold: cells
      `k`, `k + 1`, ... substituted in order into the step. */
  function SubstituteFrom(step: Step, placeholders: seq<string>, row: seq<string>, k: nat): Step
    requires |row| <= |placeholders| && k <= |row|
    decreases |row| - k
  {
    if k == |row| then step
    else SubstituteFrom(ReplaceInStep(step, Marker(placeholders[k]), row[k]), placeholders, row, k + 1)
  }

  /** A template step with every placeholder of the row filled in. */
  function Substitute(step: Step, placeholders: seq<string>, row: seq<string>): Step
    requires |row| <= |placeholders|
  {
    SubstituteFrom(step, placeholders, row, 0)
  }

  /** The scenario one row of a block produces. */
  function RowScenario(o: ScenarioOutline, b: TaggedScenarios, row: seq<string>): Scenario
    requires |row| <= |b.placeholders|
  {
    Scenario(b.tags, o.name, o.description,
             seq(|o.steps|, i requires 0 <= i < |o.steps| => Substitute(o.steps[i], b.placeholders, row)))
  }

  /** The scenarios of one block, one per value row, in row order. */
  function BlockScenarios(o: ScenarioOutline, b: TaggedScenarios): seq<Scenario>
    requires b.WellFormed()
  {
    seq(|b.values|, j requires 0 <= j < |b.values| => RowScenario(o, b, b.values[j]))
  }

  /** The `flat_map` over the blocks from `blocks` on. */
  function ExpandBlocks(o: ScenarioOutline, blocks: seq<TaggedScenarios>): seq<Scenario>
    requires forall k :: 0 <= k < |blocks| ==> blocks[k].WellFormed()
  {
    if blocks == [] then [] else BlockScenarios(o, blocks[0]) + ExpandBlocks(o, blocks[1..])
  }

  /** `ScenarioOutline::scenarios`. */
  function Scenarios(o: ScenarioOutline): seq<Scenario>
    requires o.WellFormed()
  {
    ExpandBlocks(o, o.scenarios)
  }

  /** The number of rows in the blocks: the sum of their `len()`. */
  function TotalLen(blocks: seq<TaggedScenarios>): nat {
    if blocks == [] then 0 else blocks[0].Len() + TotalLen(blocks[1..])
  }

  /** There is one scenario per value row, over all the blocks. */
  lemma {:induction false} ExpandCount(o: ScenarioOutline, blocks: seq<TaggedScenarios>)
    requires forall k :: 0 <= k < |blocks| ==> blocks[k].WellFormed()
    ensures |ExpandBlocks(o, blocks)| == TotalLen(blocks)
  {
    if blocks != [] {
      ExpandCount(o, blocks[1..]);
    }
  }

  lemma ScenarioCount(o: ScenarioOutline)
    requires o.WellFormed()
    ensures |Scenarios(o)| == TotalLen(o.scenarios)
  {
    ExpandCount(o, o.scenarios);
  }

  /** Block `k`, row `j` yields the scenario at position `TotalLen` of the
      blocks before it plus `j`: scenarios come block by block, and row by
      row within a block. */
  lemma {:induction false} ExpandAt(o: ScenarioOutline, blocks: seq<TaggedScenarios>, k: nat, j: nat)
    requires forall k :: 0 <= k < |blocks| ==> blocks[k].WellFormed()
    requires k < |blocks| && j < blocks[k].Len()
    ensures TotalLen(blocks[..k]) + j < |ExpandBlocks(o, blocks)|
    ensures ExpandBlocks(o, blocks)[TotalLen(blocks[..k]) + j] == RowScenario(o, blocks[k], blocks[k].values[j])
  {
    ExpandCount(o, blocks);
    if k == 0 {
      assert blocks[..0] == [];
    } else {
      ExpandAt(o, blocks[1..], k - 1, j);
      assert blocks[1..][..k - 1] == blocks[1..k];
      assert blocks[..k] == [blocks[0]] + blocks[1..k];
      assert blocks[..k][1..] == blocks[1..k];
    }
  }

  /** The scenario for block `k`, row `j` carries the block's tags and the
      outline's name and description, and its steps match the template's
      one for one, with the same step types. */
  lemma ScenarioOfRow(o: ScenarioOutline, k: nat, j: nat)
    requires o.WellFormed()
    requires k < |o.scenarios| && j < o.scenarios[k].Len()
    ensures TotalLen(o.scenarios[..k]) + j < |Scenarios(o)|
    ensures var s := Scenarios(o)[TotalLen(o.scenarios[..k]) + j];
            && s.tags == o.scenarios[k].tags
            && s.name == o.name && s.description == o.description
            && |s.steps| == |o.steps|
            && forall i :: 0 <= i < |o.steps| ==> s.steps[i].ty == o.steps[i].ty
    ensures var s := Scenarios(o)[TotalLen(o.scenarios[..k]) + j];
            forall i :: 0 <= i < |o.steps| ==>
              s.steps[i] == Substitute(o.steps[i], o.scenarios[k].placeholders, o.scenarios[k].values[j])
  {
    ExpandAt(o, o.scenarios, k, j);
    var b := o.scenarios[k];
    forall i | 0 <= i < |o.steps| ensures Substitute(o.steps[i], b.placeholders, b.values[j]).ty == o.steps[i].ty {
      SubstituteKeepsShape(o.steps[i], b.placeholders, b.values[j], 0);
    }
  }

  /** Substitution keeps the step type and whether data is attached. */
  lemma {:induction false} SubstituteKeepsShape(step: Step, placeholders: seq<string>, row: seq<string>, k: nat)
    requires |row| <= |placeholders| && k <= |row|
    ensures SubstituteFrom(step, placeholders, row, k).ty == step.ty
    ensures SubstituteFrom(step, placeholders, row, k).data.Some? == step.data.Some?
    decreases |row| - k
  {
    if k < |row| {
      SubstituteKeepsShape(ReplaceInStep(step, Marker(placeholders[k]), row[k]), placeholders, row, k + 1);
    }
  }

  /** A description that mentions none of the placeholders comes out of the
      substitution unchanged. */
  lemma {:induction false} SubstituteAbsent(step: Step, placeholders: seq<string>, row: seq<string>, k: nat)
    requires |row| <= |placeholders| && k <= |row|
    requires forall i :: k <= i < |row| ==> !Contains(step.description, Marker(placeholders[i]))
    ensures SubstituteFrom(step, placeholders, row, k).description == step.description
    decreases |row| - k
  {
    if k < |row| {
      var from := Marker(placeholders[k]);
      ReplaceAbsent(step.description, from, row[k]);
      SubstituteAbsent(ReplaceInStep(step, from, row[k]), placeholders, row, k + 1);
    }
  }
}
