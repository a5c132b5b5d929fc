/**
 * `QueryHandler.process_query`: the context and the prompt are built from
 * the user's arguments, the completion service answers the prompt, and the
 * references are extracted from that same answer.
 */
module Handler {
  import opened Citations
  import opened Prompt

  /** The dictionary `process_query` returns: the answer and its references. */
  datatype Analysis = Analysis(answer: string, references: seq<string>)

  /**
   * `process_query`, for the jurisdiction `Federal` unless another state is
   * given. The completion service is the parameter `complete`, the text it
   * returns for a prompt.
   */
  method ProcessQuery(query: string, category: string, state: string := "Federal", complete: string -> string)
    returns (result: Analysis)
    ensures result.answer == complete(BuildPrompt(query, BuildContext(category, state)))
    ensures Distinct(result.references) && Elements(result.references) == References(result.answer)
  {
    var context := BuildContext(category, state);
    var fullPrompt := BuildPrompt(query, context);
    var content := complete(fullPrompt);
    var refs := ExtractReferences(content);
    result := Analysis(content, refs);
  }
}
