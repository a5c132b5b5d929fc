# AI Legal Advisor query handler, modelled in Dafny

The query handler of the AI Legal Advisor answers a legal question about
Australian law in three steps. It builds a context paragraph from the legal
category and the jurisdiction. It wraps that context and the user's query in
a prompt. It sends the prompt to a completion service. It returns the answer
together with the legislation and case-law citations found in that answer.

The project models these steps.

- `Regex` (`regex.dfy`) models the part of Python's `re` engine that the two
  citation patterns use: literals, an alternation of literals, and greedy
  repetition of an ASCII character class. Matching is by ordered
  backtracking. `MatchFrom` is the operational matcher. `Matches` is the
  declarative language of a pattern. `Sound` and `Complete` prove that the
  two agree.
- `Scanner` (`scanner.dfy`) models `re.findall`. The scan goes left to right,
  takes the engine's match at the leftmost position where one starts, and
  resumes at its end. The scan is stated over any matcher; `Engine` plugs in
  the backtracking matcher.
- `Citations` (`citations.dfy`) models `extract_references`:
  - the legislation pattern and the case-law pattern, item by item;
  - the list built from the two `findall` results;
  - `list(set(...))`, as a loop that takes the elements of the set one by one.
- `Prompt` (`prompt.dfy`) models `build_context` and `build_prompt`. Each is
  an f-string with two placeholders, so both are instances of one `Template`.
  The fixed text keeps the templates' line breaks and eight-space
  indentation.
- `Handler` (`handler.dfy`) models `process_query`. It builds the context and
  the prompt, asks the completion service, and extracts the references from
  the same answer text. The completion service is a parameter: a function
  from the prompt to the answer text.
- `Steps` (`steps.dfy`) runs the matcher one pattern item at a time. It
  gives the legislation match and the case-law match of a text of a given
  outline, the positions where no match can start, and what `findall`
  returns for one match and for two.
- `Worked` (`worked.dfy`) applies these steps to concrete answer texts: a
  sentence citing an Act, a sentence citing a case, two citations joined by
  a space, two citations written as two sentences, and one Act cited twice
  in both ways.

Two consequences of the greedy run `[\w\s]+` in the legislation pattern
(query_handler.py:74) show up in what `extract_references` returns
(query_handler.py:81):

- Take two legislation citations of the form
  `Section <digits> of the <name>Act <year>`, and join them with word
  characters or white space only. The run of the first reaches over its own
  `Act <year>` and over the second citation, so the joined text has one
  reference: the whole of it. `Worked.MergedCitations` proves this for any
  two citations of that form. `Worked.JoinedReferencesMerge` proves it for
  `Section 1 of the A Act 2000` and `Section 2 of the B Act 2001` joined by a
  space. So extracting again from references joined by a space does not in
  general give them back. A character outside `[\w\s]` between the two
  ends the run: `Worked.SeparatedCitations` proves that the same two
  citations written as `first. second` are two references, and
  `Worked.SeparateActsReferences` proves it for the two short citations.
  The model does not prove the merge for a first citation that opens with
  `Sec. ` or `s. ` or has letters after its number, nor for a second one
  that opens with `Sec. `, `s. ` or `[`.
- A text made of one Act citation `Section <digits> of the <name>Act <year>`
  twice, with only word characters and white space between the two and a
  tail as in `Worked.SectionCitationReference` after them, has one
  reference: the whole stretch from the first `Section ` to the second year.
  This is `Worked.MergedCitations` with the same citation twice. The Act
  citation on its own is not among the references.
  `Worked.RepeatedActReference` proves this for
  `Section 18 of the Fair Work Act 2009 and Section 18 of the Fair Work Act 2009`.
  Other tails are not covered: the run may reach a later `Act <year>` and
  make the reference longer, and a later citation after a `.` may be a
  reference of its own.
  Written as two sentences,
  `Section 18 of the Fair Work Act 2009. Section 18 of the Fair Work Act 2009`,
  the two citations are separate matches: `findall` returns the citation
  twice, and the set in `extract_references` keeps it once.
  `Worked.RepeatedSentencesReferences` proves both, and that a
  duplicate-free list of the references is the citation alone.

## Model

| member | source | states |
|---|---|---|
| Citations.ExtractReferences | query_handler.py:69-81 | The returned list has no duplicates. Its elements are exactly the legislation matches and the case-law matches of the text. Each element matches one of the two patterns in full and occurs in the text as a contiguous piece. An empty text gives an empty list. |
| Citations.SetToList | query_handler.py:81 | `list(set(...))`: every element of the set appears exactly once, nothing else appears, and the length is the size of the set. |
| Citations.References | query_handler.py:71-79 | A string is a reference iff it is a legislation match or a case-law match, so nothing is added and nothing is lost. Each reference matches a pattern in full and is a contiguous piece of the text. |
| Citations.ReferencesEmpty | query_handler.py:71-81 | A text has no references iff no piece of it matches either pattern. |
| Citations.ReferenceForm | query_handler.py:74-78 | Every reference found has the outline of a legislation citation or of a case-law citation. |
| Citations.LegislationShape | query_handler.py:74 | A legislation match starts with `Section `, `Sec. ` or `s. `. It ends with `Act ` and exactly four digits. |
| Citations.CaseLawShape | query_handler.py:78 | A case-law match starts with `[`, four digits, `] ` and an upper-case letter. It ends with a digit. |
| Scanner.FindAll | query_handler.py:74-78 | Every string `findall` returns matches the pattern in full and is a contiguous piece of the text. |
| Scanner.FindAllEmpty | query_handler.py:74-78 | `findall` returns nothing iff no piece of the text matches the pattern. |
| Scanner.ScanReported | query_handler.py:74-78 | Every reported span is the engine's match at its start position. The spans come left to right and do not overlap. |
| Scanner.ScanCovers | query_handler.py:74-78 | No match is skipped: every position where a match starts is the start of a reported span or lies inside one. |
| Regex.MatchFrom | query_handler.py:74-78 | The end the backtracking matcher reports lies in the text. For a pattern that cannot match the empty string, the match is nonempty. |
| Regex.Run | query_handler.py:74-78 | `Run` is the longest run of characters of the class: all of them are in the class, and the next character is not. |
| Regex.Cap | query_handler.py:74-78 | `Cap` is the largest count within both the run and the repetition's upper bound. |
| Regex.AltsChoice | query_handler.py:74 | An alternation takes the first alternative after which the rest of the pattern matches. No earlier alternative leads to a match. |
| Regex.AltsComplete | query_handler.py:74 | An alternation succeeds whenever some alternative leads to a match. |
| Regex.CountsChoice | query_handler.py:74-78 | A greedy repetition takes the largest count after which the rest of the pattern matches. No larger count leads to a match. |
| Regex.CountsComplete | query_handler.py:74-78 | A greedy repetition succeeds whenever some allowed count leads to a match. |
| Regex.Sound | query_handler.py:74-78 | Whatever the backtracking matcher reports is a match of the pattern. |
| Regex.Complete | query_handler.py:74-78 | If some match of the pattern starts at a position, the matcher reports one there. |
| Regex.MatchesSplit | query_handler.py:74-78 | A match of two patterns written one after the other splits into a match of each. |
| Prompt.BuildContext | query_handler.py:33-51 | The context opens with the fixed lead text. The category follows directly. After the fixed setting text come `Jurisdiction: ` and the state. The analysis guidance closes the text. |
| Prompt.BuildPrompt | query_handler.py:53-67 | The prompt opens with a line break and the indentation, and holds the context verbatim right after them. `User Query: ` and the query follow after a fixed gap. The citation request closes the text. |
| Prompt.FillShape | query_handler.py:35-67 | A filled template opens with its lead, holds the first argument right after it, holds the marker and the second argument after the gap, and closes with its tail. |
| Prompt.FillRoundTrip | query_handler.py:35-67 | Given the length of the first argument, both arguments can be read back out of a filled template. |
| Prompt.FillInjective | query_handler.py:35-67 | Two fillings with first arguments of the same length are equal only when their arguments are equal. So the prompt for one context determines the query. |
| Prompt.PromptOrder | query_handler.py:15-16 | In the full prompt the category comes first, then `Jurisdiction: ` and the state, then `User Query: ` and the query. None of them overlap. |
| Handler.ProcessQuery | query_handler.py:11-31 | The answer is the completion service's text for the prompt built from the query, the category and the state, which is `Federal` unless given. The references are exactly those of that same answer text, without duplicates. |
| Steps.StepAlt | query_handler.py:74 | The alternation `(?:Section|Sec\.|s\.)` takes the first word that occurs and after which the rest matches. |
| Steps.CountsStop | query_handler.py:74-78 | A greedy repetition ends at the largest count after which the rest matches. |
| Steps.RepStops | query_handler.py:74-78 | A repetition whose class holds up to some position and not at it takes exactly that run, when the count is allowed and the rest of the pattern matches after it. |
| Steps.LegislationEndAt | query_handler.py:74 | On a text that holds, at some position, `Section `, digits, ` of the `, word characters and white space, `Act ` and a year, with no `A` after the year, the legislation match from that position ends right after the year. The run gives back only the last `Act <year>`. |
| Steps.LegislationStopsAt | query_handler.py:74 | With the same outline but a `.` right after the year, the legislation match from that position ends at the dot. |
| Steps.CaseLawEndAt | query_handler.py:78 | On a text that opens with `[`, a year, `] `, capitals up to a character that is not a capital, letters and white space up to a digit, and digits up to a character that is not a digit, the case-law match from the start ends after the last of those digits. |
| Steps.NoLegislationAt | query_handler.py:74 | No legislation match starts where there is no `S`, and no `s` with at least two characters after it. |
| Steps.NoCaseLawAt | query_handler.py:78 | No case-law match starts where there is no `[`. |
| Steps.FindAllOne | query_handler.py:74-78 | `findall` returns exactly the match from the start when no match starts at or after its end. |
| Steps.FindAllTwo | query_handler.py:74-78 | `findall` returns exactly the match from the start and the match from a later position when no match starts between the end of the first and the start of the second, or after the second. |
| Steps.FindAllNone | query_handler.py:74-78 | `findall` returns nothing when no match starts anywhere. |
| Worked.SectionCitationReference | query_handler.py:71-81 | A text that opens with `Section <number> of the <name>Act <year>`, for digits, word characters and white space, and four digits, followed by a tail with no `A`, no `S`, no `[` and an `s` only among its last two characters, has that citation as its only reference. |
| Worked.SingleCaseLaw | query_handler.py:71-81 | A text that opens with a case-law citation, `[`, a year, `] `, capitals up to a character that is not one, letters and white space, and digits up to a character that is not one, with no `[` after the citation, and with no `S` and an `s` only among the last two characters anywhere after the opening bracket, has that citation as its only reference. |
| Worked.MergedCitations | query_handler.py:74-81 | Two citations `Section <digits> of the <name>Act <year>` joined by word characters and white space only, followed by a tail as in `SectionCitationReference`, make one reference: the whole joined text. |
| Worked.FairWorkReference | query_handler.py:71-81 | The only reference of `Section 18 of the Fair Work Act 2009 applies.` is exactly `Section 18 of the Fair Work Act 2009`. |
| Worked.HighCourtReference | query_handler.py:71-81 | The only reference of `[2021] HCA 27 held that...` is exactly `[2021] HCA 27`. |
| Worked.JoinedReferencesMerge | query_handler.py:74-81 | `Section 1 of the A Act 2000` and `Section 2 of the B Act 2001` are each their own only reference. Joined by a space, they give one reference: the whole joined text. |
| Worked.RepeatedActReference | query_handler.py:74-81 | `Section 18 of the Fair Work Act 2009`, cited twice with ` and ` between, gives one reference: the whole text. The single citation is not among the references. |
| Worked.SeparatedCitations | query_handler.py:74-81 | Two citations `Section <digits> of the <name>Act <year>` written as `first. second`, followed by a tail as in `SectionCitationReference`: `findall` returns the first and then the second, each on its own, and they are the only references. |
| Worked.SeparateActsReferences | query_handler.py:74-81 | `Section 1 of the A Act 2000. Section 2 of the B Act 2001` has exactly the two short citations as references. |
| Worked.RepeatedSentencesReferences | query_handler.py:74-81 | In `Section 18 of the Fair Work Act 2009. Section 18 of the Fair Work Act 2009`, `findall` returns the citation twice, the references are that citation alone, and a duplicate-free list of them holds it once. |

## Left out

- `app.py`, the Streamlit interface, is not part of this model. That covers its session history, its statistics and its charting helper.
- The Groq client is not modelled: its construction with the API key from the environment (query_handler.py:9) and the chat-completion request with its model name, temperature and system message (query_handler.py:19-26). The completion service is the parameter `complete` of `Handler.ProcessQuery`.
- Handler.ProcessQuery: does not model failures of the completion service (exceptions, no choices, a `None` message content). The handler defines no error handling of its own, and an error simply propagates.
- Regex.InRange: `\w`, `\d` and `\s` are modelled on ASCII characters only. Python's Unicode meanings of the three classes are not modelled.
- Scanner.FindAll: takes only patterns that cannot match the empty string. Both citation patterns are of this kind, so Python's rules for empty matches never apply and are not modelled.
- Citations.SetToList: the order of the list `list(set(...))` returns is not modelled. Python's order depends on string hashing, so the model leaves the order unspecified and states only the elements.
- Steps.CaseLawEndAt: covers only court names whose capitals end at a lower-case letter or white space. When the capitals run straight into the digits, as in `[2021] HCA27`, `[A-Z]+` gives its last capital back to `[A-Za-z\s]+`; that run is described by `CaseLawShape`, `Sound` and `Complete`, but no step-by-step run is proved for it.
- Steps.LegislationEndAt: covers only legislation matches that open with `Section ` and whose number is followed directly by ` of the `; `Steps.LegislationStopsAt` likewise. Matches opening with `Sec. ` or `s. `, or with letters after the number, are described by `LegislationShape`, `Sound` and `Complete`, but no step-by-step run is proved for them.
- Idempotence of extraction on its own output is not stated as a property, because the code does not have it: `Worked.JoinedReferencesMerge` shows two citations, each its own only reference, that give one reference when joined by a space. Joined as two sentences they give both back (`Worked.SeparateActsReferences`).
