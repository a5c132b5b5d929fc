/**
 * `QueryHandler.build_context` and `QueryHandler.build_prompt`: two
 * f-string templates, each a fixed text with two arguments spliced in.
 * The literals keep the templates' own line breaks and eight-space
 * indentation.
 */
module Prompt {
  import opened Wrappers
  import opened Regex

  /** Text of the context before the legal category. */
  const ContextLead: string := "You are an expert in "

  /** Text of the context between the category and the jurisdiction label. */
  const ContextSetting: string :=
    " within Australian Law, particularly knowledgeable about relevant legislation"
    + " and its recent amendments up to 2024.\n\n        "

  /** The label in front of the jurisdiction. */
  const JurisdictionLabel: string := "Jurisdiction: "

  /** The analysis instructions that close the context. */
  const ContextGuidance: string :=
    "\n\n        When providing your analysis:"
    + "\n        1. Start with a clear summary of the legal position"
    + "\n        2. Cite specific sections of relevant Acts and regulations"
    + "\n        3. Reference recent case law (2020-2024) if applicable"
    + "\n        4. Explain any state-specific variations or requirements"
    + "\n        5. Highlight recent legal changes or upcoming reforms"
    + "\n        6. Provide practical next steps or implications"
    + "\n        "
    + "\n        Format your response with clear sections:"
    + "\n        - Summary"
    + "\n        - Legal Analysis"
    + "\n        - Practical Implications"
    + "\n        - References"

  /** Text of the prompt before the context. */
  const PromptLead: string := "\n        "

  /** Text of the prompt between the context and the query label. */
  const PromptGap: string := "\n        \n        "

  /** The label in front of the user's query. */
  const QueryLabel: string := "User Query: "

  /** The request that closes the prompt. */
  const PromptRequest: string :=
    "\n        "
    + "\n        Please provide a comprehensive legal analysis that:"
    + "\n        1. Directly addresses the specific query"
    + "\n        2. Includes relevant legislative provisions"
    + "\n        3. Cites applicable case law"
    + "\n        4. Explains practical implications"
    + "\n        5. Notes any recent changes or updates"
    + "\n        "
    + "\n        Ensure all citations are accurate and specific."

  /**
   * An f-string with two placeholders: `lead`, the first argument, `gap`,
   * `marker`, the second argument and `tail`.
   */
  datatype Template = Template(lead: string, gap: string, marker: string, tail: string)

  /** Where the label in front of the second argument starts, for a first argument of `n` characters. */
  function LabelAt(t: Template, n: nat): nat {
    |t.lead| + n + |t.gap|
  }

  /** `s` ends with `w`. */
  predicate EndsWith(s: string, w: string) {
    |w| <= |s| && s[|s| - |w|..] == w
  }

  /** The template filled in with `x` and `y`. */
  function Fill(t: Template, x: string, y: string): string {
    t.lead + x + t.gap + t.marker + y + t.tail
  }

  /**
   * A filled template opens with the lead, holds `x` right after it and
   * the marker with `y` after the gap, and closes with the tail.
   */
  lemma FillShape(t: Template, x: string, y: string)
    ensures var r := Fill(t, x, y);
      && StartsWith(r, 0, t.lead)
      && StartsWith(r, |t.lead|, x)
      && StartsWith(r, LabelAt(t, |x|), t.marker + y)
      && EndsWith(r, t.tail)
      && |r| == LabelAt(t, |x|) + |t.marker| + |y| + |t.tail|
  {
    var r := Fill(t, x, y);
    var b := LabelAt(t, |x|);
    assert r[..|t.lead|] == t.lead;
    assert r[|t.lead|..|t.lead| + |x|] == x;
    assert r[b..b + |t.marker + y|] == t.marker + y;
    assert r[|r| - |t.tail|..] == t.tail;
  }

  /**
   * Reads the two arguments back out of a text, given the length of the
   * first; `None` when `r` is not the template filled in with a first
   * argument of that length.
   */
  function Arguments(t: Template, r: string, n: nat): Option<(string, string)> {
    var yAt := LabelAt(t, n) + |t.marker|;
    if yAt + |t.tail| <= |r| then
      var x := r[|t.lead|..|t.lead| + n];
      var y := r[yAt..|r| - |t.tail|];
      if Fill(t, x, y) == r then Some((x, y)) else None
    else
      None
  }

  /** The arguments can be read back out of the filled template. */
  lemma FillRoundTrip(t: Template, x: string, y: string)
    ensures Arguments(t, Fill(t, x, y), |x|) == Some((x, y))
  {
    var r := Fill(t, x, y);
    var yAt := LabelAt(t, |x|) + |t.marker|;
    FillShape(t, x, y);
    assert r[yAt..|r| - |t.tail|] == y by {
      assert r[LabelAt(t, |x|)..yAt + |y|] == t.marker + y;
      assert (t.marker + y)[|t.marker|..] == y;
    }
  }

  /** Two fillings with first arguments of one length are equal only for equal arguments. */
  lemma {:induction false} FillInjective(t: Template, x1: string, y1: string, x2: string, y2: string)
    requires |x1| == |x2| && Fill(t, x1, y1) == Fill(t, x2, y2)
    ensures x1 == x2 && y1 == y2
  {
    FillRoundTrip(t, x1, y1);
    FillRoundTrip(t, x2, y2);
  }

  /** The template of `build_context`: the category, then the jurisdiction. */
  const ContextTemplate: Template := Template(ContextLead, ContextSetting, JurisdictionLabel, ContextGuidance)

  /** The template of `build_prompt`: the context, then the query. */
  const PromptTemplate: Template := Template(PromptLead, PromptGap, QueryLabel, PromptRequest)

  /**
   * `build_context`: the category is spliced in after the opening words,
   * the jurisdiction after its label, and the guidance closes the text.
   */
  function BuildContext(category: string, state: string): (r: string)
    ensures StartsWith(r, 0, ContextLead)
    ensures StartsWith(r, |ContextLead|, category)
    ensures StartsWith(r, LabelAt(ContextTemplate, |category|), JurisdictionLabel + state)
    ensures EndsWith(r, ContextGuidance)
  {
    FillShape(ContextTemplate, category, state);
    Fill(ContextTemplate, category, state)
  }

  /**
   * `build_prompt`: the context is spliced in after a line break and the
   * indentation, the query after its label, and the request closes the text.
   */
  function BuildPrompt(query: string, context: string): (r: string)
    ensures StartsWith(r, 0, PromptLead)
    ensures StartsWith(r, |PromptLead|, context)
    ensures StartsWith(r, LabelAt(PromptTemplate, |context|), QueryLabel + query)
    ensures EndsWith(r, PromptRequest)
  {
    FillShape(PromptTemplate, context, query);
    Fill(PromptTemplate, context, query)
  }

  /** What occurs at `i` in a piece of `s` starting at `k` occurs at `k + i` in `s`. */
  lemma Shift(s: string, k: nat, t: string, i: nat, w: string)
    requires StartsWith(s, k, t) && StartsWith(t, i, w)
    ensures StartsWith(s, k + i, w)
  {
    assert forall j :: 0 <= j < |w| ==> w[j] == t[i + j] == s[k + i + j];
  }

  /**
   * Filling `outer` with `inner` filled in with `x` and `y`, then with `z`,
   * places `x`, the marker of `inner` with `y`, and the marker of `outer`
   * with `z` in that order, none of them overlapping.
   */
  lemma NestedOrder(outer: Template, inner: Template, x: string, y: string, z: string)
    returns (a: nat, b: nat, c: nat)
    ensures var p := Fill(outer, Fill(inner, x, y), z);
      && StartsWith(p, a, x)
      && a + |x| <= b && StartsWith(p, b, inner.marker + y)
      && b + |inner.marker| + |y| <= c && StartsWith(p, c, outer.marker + z)
  {
    var context := Fill(inner, x, y);
    var p := Fill(outer, context, z);
    FillShape(inner, x, y);
    FillShape(outer, context, z);
    a := |outer.lead| + |inner.lead|;
    b := |outer.lead| + LabelAt(inner, |x|);
    c := LabelAt(outer, |context|);
    Shift(p, |outer.lead|, context, |inner.lead|, x);
    Shift(p, |outer.lead|, context, LabelAt(inner, |x|), inner.marker + y);
  }

  /**
   * In the full prompt for a query, a category and a jurisdiction, the
   * category comes first, then the jurisdiction after its label, then the
   * query after its label, none of them overlapping.
   */
  lemma PromptOrder(query: string, category: string, state: string) returns (a: nat, b: nat, c: nat)
    ensures var p := BuildPrompt(query, BuildContext(category, state));
      && StartsWith(p, a, category)
      && a + |category| <= b && StartsWith(p, b, JurisdictionLabel + state)
      && b + |JurisdictionLabel| + |state| <= c && StartsWith(p, c, QueryLabel + query)
  {
    a, b, c := NestedOrder(PromptTemplate, ContextTemplate, category, state, query);
  }
}
