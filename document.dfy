/** The parsed document shared by the line parser of
    gherkin/src/parser/mod.rs and the outline expander of
    gherkin/src/scenario_outline.rs: steps, the data attached to a step and
    scenarios. */
module Document {
  import opened Wrappers
  import opened DataTables

  /** The keyword a step was written with; And, But and `*` stay distinct. */
  datatype StepType = Given | When | Then | And | But | Asterisk

  /** What may follow a step line. */
  datatype StepData = DocString(text: string) | DataTable(table: Table)

  /** The doc-string delimiter. */
  const Quotes: string := "\"\"\""

  datatype Step = Step(ty: StepType, description: string, data: Option<StepData>)

  datatype Scenario = Scenario(
    tags: seq<string>,
    name: Option<string>,
    description: Option<string>,
    steps: seq<Step>)
}
