# Report generator core, in Dafny

This project models the data-handling core of a Streamlit page. The page
fills a prompt template for every row of a spreadsheet, sends each prompt to
a chat-completion service and turns each markdown reply into a Word
document. Five parts are modelled and proved:

- **Template substitution** (`ler_e_substituir_template`), module
  `Template`. It is one left-to-right pass of the regular expression
  `\{\{([^{}]+)\}\}`. Each match becomes the record's value for the
  trimmed name, trimmed, or nothing when the name is missing or its value
  is None. It is proved equal to an independent "fill the pieces"
  definition on every well-formed template.
- **Bold runs** (`formatar_paragrafo_com_negrito`), module `Bold`. It
  models `re.split(r'(\*\*.*?\*\*)', text)`, with the lazy close and `.`
  stopping at a line break, and the run each piece becomes. `FormatBold`
  appends the runs to a paragraph object.
- **Markdown to document blocks** (the line loop of `criar_docx_bytes`),
  modules `Markdown`, `Docx`, `MarkdownExamples` and `WorkedExample`.
  Headings are `#` lines; bullets start with `- ` or `* `; every other
  non-blank line is a normal paragraph. The document and the paragraph are
  classes whose methods append blocks and runs.
- **Preparing the prompts** (the loop behind "1. Preparar Prompts"), module
  `Prepare`. It covers the selected-column filter, the display name, the
  cleaned file name `nome_limpo`, the prompt items and the archive entries.
- **Retry logic** of `chamar_gpt`, module `Retry`. It runs over a script of
  request outcomes and records the sleeps it makes.

The pieces of Python's `str` these rely on are in module `Text`: `isspace`,
`strip`, `lstrip('#')`, `count`, `split('\n')` and `str(int)`. White space
is Python's `str.isspace` set, which is also what `\s` matches in a `str`
pattern. Module `Wrappers` holds `Option`.

A spreadsheet row is a map from column name to cell. The cell `None` is
Python's None; `Some(s)` is the cell's `str()`, so a pandas NaN is the
string `nan`.

Behaviours of the code a reader may not expect:

- After three rate-limited attempts, `chamar_gpt` falls off the end of its
  loop and returns None. It does not raise. The same happens when an early
  attempt fails and the later ones are rate limited (`Retry.NoneIffAllRetried`).
  A successful response whose `message.content` is JSON null also makes it
  return None, after one request; that path is outside the model (see
  "## Left out").
- A line that starts with a bold marker, such as `- **Bold** item`, gives an
  empty plain run before the bold one: `re.split` yields an empty first
  piece (`WorkedExample.RenderExample`).
- `nome_limpo` keeps every white-space character that is not a space
  (tabs, line breaks, no-break spaces). Only the space becomes `_`
  (`Prepare.CleanNameOneChar`).
- A value that itself contains `{{x}}` is copied as it is and not expanded,
  so a filled prompt can still contain `{{` (`Template.ValueNotRescanned`).
- Different names can clean to the same file name, and their archive
  entries then share one path (`Prepare.AccentCollision`).

## Model

| member | source | states |
|---|---|---|
| Text.Strip | app_web_streamlit.py:51 | `strip()`: the result is the infix starting after the leading white space; everything after it is white space; it neither starts nor ends with white space; it is empty exactly when the line is all white space |
| Text.StripIdempotent | app_web_streamlit.py:19-21 | stripping a stripped string changes nothing |
| Text.StripUnchanged | app_web_streamlit.py:51 | a string that neither starts nor ends with white space is its own stripped form |
| Text.LStripChar | app_web_streamlit.py:58 | `lstrip('#')`: a suffix of the line, everything removed is `#`, and it does not start with `#` |
| Text.Count | app_web_streamlit.py:57 | `count('#')` is at most the length and is zero exactly when there is no `#` |
| Text.CountIsMultiplicity | app_web_streamlit.py:57 | `count(c)` is the number of occurrences of `c`: its multiplicity in the multiset of the line's characters |
| Text.Split | app_web_streamlit.py:48 | `split('\n')`: at least one piece, no piece holds a line break, and joining the pieces with line breaks gives the text back |
| Text.SplitJoin | app_web_streamlit.py:48 | splitting a join of pieces without line breaks gives the pieces back |
| Text.NatToString | app_web_streamlit.py:198 | `str(n)`: decimal digits, at least one, no leading zero, whose decimal value is `n` |
| Text.NatToStringOfValue | app_web_streamlit.py:198 | every digit string without a superfluous leading zero is the `str` of its value, so distinct numbers give distinct texts |
| Text.IntToString | app_web_streamlit.py:102 | `str(status)`: starts with `-` exactly when the number is negative, and the digits (after the sign) have no superfluous leading zero and denote the magnitude |
| Template.Lookup | app_web_streamlit.py:18-21 | the callback: no ensures; `NameIsTrimmed` and `OnePlaceholder` state its contract (the trimmed value for the trimmed name, "" when the name is missing or its value is None) |
| Template.Substitute | app_web_streamlit.py:16-22 | `re.sub` with the callback: no ensures; `SubstituteFills` states its contract against the independent `Fill`, with `LiteralCopied`, `PlaceholderMatched` and `NoPlaceholderUnchanged` |
| Template.RunEnd | app_web_streamlit.py:22 | the greedy `[^{}]+` run ends at the first brace or the end of the text, and holds no brace |
| Template.MatchAt | app_web_streamlit.py:22 | a match at the front is `{{`, a non-empty brace-free name, then `}}` |
| Template.SubstituteFills | app_web_streamlit.py:16-22 | on a template made of placeholders and literals (single braces allowed, no `{{`, no `{` at a literal's end), substitution copies the literals and replaces each placeholder by its value, never rescanning a value |
| Template.LiteralCopied | app_web_streamlit.py:22 | text with no `{{` and no trailing `{` passes through unchanged and the scan continues after it |
| Template.PlaceholderMatched | app_web_streamlit.py:22 | `{{name}}` with a brace-free name is matched in full, and the name is the captured group |
| Template.NoPlaceholderUnchanged | app_web_streamlit.py:22 | a template in which no placeholder starts anywhere comes back unchanged |
| Template.NameIsTrimmed | app_web_streamlit.py:19-20 | white space around the name inside the braces does not change the replacement |
| Template.OnePlaceholder | app_web_streamlit.py:18-22 | one placeholder between literals becomes the trimmed value of the trimmed name, or nothing when the name is missing or its value is None |
| Template.BracesAroundPlaceholder | app_web_streamlit.py:16-22 | `{x: {{a}}}` with `a = 1` gives `{x: 1}`: single braces are copied |
| Template.HelloExample | app_web_streamlit.py:16-22 | `Hello {{name}}!` with name `Ana` gives `Hello Ana!` |
| Template.ValueNotRescanned | app_web_streamlit.py:22 | a value `{{b}}` is inserted literally even though `b` has a value |
| Bold.SplitFrom | app_web_streamlit.py:30 | the `re.split` scan from a position: at least one piece; `SplitFromConcat`, `SplitFromShape` and `SplitFromPlain` state the rest |
| Bold.SplitBold | app_web_streamlit.py:30 | `re.split(r'(\*\*.*?\*\*)', texto)`: no ensures; `SplitBoldShape` states its contract |
| Bold.SpanOf | app_web_streamlit.py:31-38 | the run one piece becomes: no ensures; `SplitBoldShape` (odd pieces become bold runs without the markers) and `RestorePieceExact` state its contract |
| Bold.Spans | app_web_streamlit.py:30-38 | the runs of a line: no ensures; `SplitBoldShape`, `SpansRestoreText`, `NoStarsOnePlainRun` and `OneBoldWord` state its contract |
| Bold.CloseFrom | app_web_streamlit.py:30 | the lazy close finds the first `**`, with no line break and no earlier `**` before it; when it finds none, every later `**` has a line break before it |
| Bold.MatchEnd | app_web_streamlit.py:30 | a match at `i` is `**`, then text with no line break and no `**`, then the first `**` after it; there is none exactly when `**` does not start at `i` or every later `**` has a line break before it |
| Bold.SplitBoldShape | app_web_streamlit.py:30-38 | the pieces joined give the text; there is an odd number of them; every odd-numbered piece is a `**...**` match whose run is bold with the markers removed; no match starts inside an even-numbered (plain) piece |
| Bold.SpansRestoreText | app_web_streamlit.py:30-38 | putting `**` back around the bold runs gives the line back, except that a stray `**` or `***` at the end comes back as `****` |
| Bold.NoStarsOnePlainRun | app_web_streamlit.py:30-38 | a line without `*` is one plain run |
| Bold.OneBoldWord | app_web_streamlit.py:30-38 | `pre**word**post` splits into three pieces and gives the runs `pre`, bold `word`, `post` |
| Bold.FormatBold | app_web_streamlit.py:24-38 | the paragraph's runs become the old runs followed by the runs of the text, and its style is unchanged |
| Docx.ParagraphBuilder.AddRun | app_web_streamlit.py:34-38 | `add_run` appends one run and keeps the style |
| Docx.Document.AddHeading | app_web_streamlit.py:60 | `add_heading` appends one heading block |
| Docx.Document.AddParagraph | app_web_streamlit.py:63-69 | `add_paragraph` appends the paragraph as a block |
| Markdown.Classify | app_web_streamlit.py:56-71 | the block a stripped line becomes: no ensures; `ClassifyHeading`, `HeadingText` and `ClassifyParagraph` state its contract |
| Markdown.RenderLine | app_web_streamlit.py:50-53 | one line's block, none for a blank line: no ensures; `BlankLineIgnored` and `OneBlockPerLine` state its contract |
| Markdown.RenderLines | app_web_streamlit.py:50-71 | the blocks of a list of lines: no ensures; `RenderLinesAppend`, `OneBlockPerLine` and `BlankLineIgnored` state its contract |
| Markdown.Render | app_web_streamlit.py:48-71 | the blocks of a reply split on line breaks: no ensures; `CreateDocument` and `WorkedExample.RenderExample` state its contract |
| Markdown.RenderLinesAppend | app_web_streamlit.py:50-69 | the blocks of two runs of lines are the blocks of the first followed by those of the second |
| Markdown.OneBlockPerLine | app_web_streamlit.py:50-69 | one block per line that is not blank after stripping, in order, each classified from the stripped line |
| Markdown.BlankLineIgnored | app_web_streamlit.py:51-53 | a blank line anywhere adds no block |
| Markdown.ClassifyHeading | app_web_streamlit.py:56-60 | a line is a heading exactly when it starts with `#`; the level is the line's `#` count capped at 9, in 1..9; the text is stripped and shorter than the line |
| Markdown.HeadingText | app_web_streamlit.py:58 | the heading text is what follows the leading run of `#`, stripped |
| Markdown.ClassifyParagraph | app_web_streamlit.py:63-70 | a non-heading line is a bullet exactly when it starts with `- ` or `* `; a bullet's runs come from the text after those two characters, a normal paragraph's from the whole line |
| Markdown.AddLine | app_web_streamlit.py:51-70 | one pass of the loop appends the block for the line, or nothing for a blank line |
| Markdown.AddHeadingLine | app_web_streamlit.py:56-60 | a `#` line appends its heading block |
| Markdown.AddParagraphLine | app_web_streamlit.py:62-70 | any other line appends its paragraph, bullet or normal, filled by the bold splitter |
| Markdown.CreateDocument | app_web_streamlit.py:40-70 | the document's blocks are the rendering of the reply |
| MarkdownExamples.SingleHashHeading | app_web_streamlit.py:56-60 | `# title` is a level-1 heading whose text is the title |
| MarkdownExamples.BoldLineIsNotBullet | app_web_streamlit.py:63-70 | `**x**` is a normal paragraph with a bold `x`, not a bullet |
| WorkedExample.RenderExample | app_web_streamlit.py:40-70 | a reply shaped like `# Title`, `- **Bold** item`, `Plain line` renders to a level-1 heading, a bullet with the runs empty, bold, plain, and a one-run paragraph |
| Prepare.DisplayName | app_web_streamlit.py:198 | `str(row.get('nome_completo', f'Registro {i+1}'))`: the name cell's text when the column exists; otherwise `Registro ` followed by canonical decimal digits whose value is the 1-based row number |
| Prepare.DefaultNamesDistinct | app_web_streamlit.py:198-201 | two rows without a name column at different positions get different labels and different file names, so default labels never share an archive path |
| Prepare.DefaultNameClean | app_web_streamlit.py:198-199 | a default label `Registro <digits>` cleans to `Registro_<digits>` |
| Prepare.KeepAllowed | app_web_streamlit.py:199 | `re.sub(r'[^a-zA-Z0-9\s]', '', ...)`: no longer than the input, only kept characters, and an input of kept characters only comes back unchanged; `CleanNameOneChar` and `KeepAllowedAppend` fix it fully |
| Prepare.Underscores | app_web_streamlit.py:199 | `.replace(' ', '_')`: same length, each space becomes `_` and every other character stays |
| Prepare.CleanName | app_web_streamlit.py:199 | `nome_limpo`: no ensures; `CleanNameOneChar` with `CleanNameAppend` state its contract, and `CleanNameChars` bounds its characters |
| Prepare.Filtered | app_web_streamlit.py:194 | the filtered record has exactly the selected columns, with the row's cells |
| Prepare.CleanNameOneChar | app_web_streamlit.py:199 | each character is deleted when it is not an ASCII letter, digit or white space, becomes `_` when it is the space, and is kept otherwise |
| Prepare.CleanNameChars | app_web_streamlit.py:199 | a cleaned name holds no space, only ASCII letters, digits, `_` and other white space, and is no longer than the name |
| Prepare.AlnumNameUnchanged | app_web_streamlit.py:199 | a name made only of ASCII letters and digits is its own file name |
| Prepare.CleanNameAppend | app_web_streamlit.py:199 | cleaning a concatenation cleans each part |
| Prepare.DroppedCharCollides | app_web_streamlit.py:199-201 | inserting a character outside the kept set does not change the file name |
| Prepare.AccentCollision | app_web_streamlit.py:199-201 | `José Silva` and `Jos Silva` get the same file name |
| Prepare.Archive | app_web_streamlit.py:201 | one archive entry per item, in order, at `<file name>_prompt.txt` holding the item's content |
| Prepare.PromptsPerRow | app_web_streamlit.py:193-208 | one item per row, in row order: id `i`, the row's display name, that name cleaned, and the template filled from the row's selected columns |
| Prepare.ContentSeesSelectedOnly | app_web_streamlit.py:194-196 | rows that agree on the selected columns get the same prompt |
| Prepare.SelectionOrderIrrelevant | app_web_streamlit.py:194-196 | the order in which columns were selected does not change the prompt |
| Prepare.Prompts | app_web_streamlit.py:193-208 | the items of the rows, in order: no ensures; `PromptsPerRow` states its contract |
| Prepare.Prepare | app_web_streamlit.py:183-208 | the message when nothing is selected, else the items and their archive: no ensures; `PreparePrompts`, `PromptsPerRow` and `Archive` state its contract |
| Prepare.PreparePrompts | app_web_streamlit.py:183-208 | no selected column gives the error message; otherwise the loop returns the items and the archive of all rows |
| Retry.CallFrom | app_web_streamlit.py:93-108 | from attempt `t` on, at most `3 - t` requests are sent and no more sleeps than requests are made |
| Retry.Result | app_web_streamlit.py:96-108 | the text an attempt stops with (the reply, `Erro na API (HTTP status): body`, or `Erro fatal na conexão: message`): no ensures; `CallShape` and `StopsAt` use it |
| Retry.CallGpt | app_web_streamlit.py:79-108 | `chamar_gpt` over a script: no ensures; `CallShape`, `StopsAt` and `NoneIffAllRetried` state its contract |
| Retry.CallShape | app_web_streamlit.py:93-108 | requests go out until the first outcome that is not retried, and each earlier attempt slept its back-off: `2 * (t + 1)` after a 429 and 1 after another failure; the reply is None exactly when every attempt was retried, and otherwise the text of the attempt that stopped the loop (the reply, the HTTP error text or the fatal text) |
| Retry.StopsAt | app_web_streamlit.py:93-108 | when the attempts before `t` were retried and attempt `t` is not, the call returns attempt `t`'s text after `t + 1` requests and the back-offs of the earlier attempts |
| Retry.NoneIffAllRetried | app_web_streamlit.py:93-105 | None is returned exactly when all three attempts were retried, the last one rate limited; three 429s give the sleeps 2, 4, 6 |
| Retry.NoneRunsToEnd | app_web_streamlit.py:93-101 | a None reply means every attempt from `t` on was retried |
| Retry.CallStep | app_web_streamlit.py:98-105 | a retried attempt sleeps its back-off and hands over to the next attempt |
| Retry.FirstReplyWins | app_web_streamlit.py:95-97 | a first successful reply is returned after one request, with no sleep |
| Retry.OtherHttpErrorNotRetried | app_web_streamlit.py:98-102 | an HTTP error other than 429, at any attempt reached after retried ones, is returned as `Erro na API (HTTP status): body` with no further request |
| Retry.RetriedThenStopped | app_web_streamlit.py:93-108 | a 429 then a 500 gives the 500's text after a sleep of 2; two 429s then a failure give the fatal text after sleeps of 2 and 4 |
| Retry.ThreeFailures | app_web_streamlit.py:103-108 | three failures give `Erro fatal na conexão:` with the last message, after two one-second sleeps |
| Retry.CallGptLoop | app_web_streamlit.py:93-108 | the loop returns the reply, the sleeps and the number of requests the definition gives |

## Left out

- The Streamlit page: widgets, session state, progress bars, the sidebar
  and the spreadsheet loading. They are rendering-framework glue with no
  logic to prove.
- The "2. Processar Fila" loop, which calls `chamar_gpt` for each item and
  saves each reply as a document. It composes the modelled parts with I/O.
  It passes the reply on unchecked: when `chamar_gpt` returns None (see
  `Retry.NoneIffAllRetried`), `criar_docx_bytes` raises at
  `texto_resposta.split('\n')`. `Markdown.CreateDocument` takes a string,
  so that failure is not modelled.
- Docx.ParagraphBuilder.AddRun: python-docx rejects text holding
  characters that XML cannot carry (`\x00`, or a control character such
  as `\x0c` inside a line, where `strip()` does not remove it) with an
  error. The model's `AddRun`, `AddHeading` and `CreateDocument` accept
  every string, so such a reply renders here but fails in the program.
- The zip files and the `.docx` bytes. The archive is a list of
  (path, text) entries and the document a list of blocks; serialisation is
  library code.
- The HTTP request, the JSON body and `time.sleep`. Each request is one
  scripted `Outcome` and each sleep a recorded number of seconds.
- Retry.Outcome: an `HttpError` may carry any status. `raise_for_status`
  raises only for 400 to 599; this is not constrained.
- Retry.Outcome: a reply whose `content` is JSON null is returned as None
  after one request; the model's replies are strings, so
  `Retry.NoneIffAllRetried` ("None exactly when every attempt was
  retried") holds only for replies that carry text.
- Retry.Outcome: a successful response without the expected JSON fields
  raises like a connection error; both are one `Failure` with a message
  standing for `str(e)`.
- Prepare.PromptsPerRow: the row index is its position, as with pandas'
  default index. A sheet with another index would give other ids and
  labels.
- Markdown.AddLine: the paragraph is added to the document after its runs
  are appended, not before. The resulting document is the same; the
  aliasing between the document and the paragraph object is not modelled.
- Heading levels are numbers; whether Word has a style for each level is
  not modelled.
