/** The classifier contract of src/interfaces/llm_provider.py: a call carries the
    description, the category list and optional few-shot examples, and a failed
    classification is reported as the sentinel category. */
module Provider {
  import opened Wrappers

  /** The fallback category returned when classification fails. */
  const Sentinel: string := "Unclassified"

  /** A few-shot example: a dict, expected to hold "description" and "category". */
  type Example = map<string, string>

  /** The arguments of one `classify_ticket` call. */
  datatype Call = Call(description: string, categories: seq<string>, examples: Option<seq<Example>>)
}
