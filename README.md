# MCQ Generator helpers — a Dafny model

The MCQ Generator reads an uploaded document, asks a language model for multiple-choice questions, and shows them as a table. This project models the two helpers in `src/mcqgenerator/utils.py` that carry the application's own logic:

- `read_file`, the document text extractor. It looks at the file name's suffix without regard to case. `.pdf` is tested first, then `.txt`; any other name is refused.
  - PDF branch: the text of every page that has text is followed by a newline, in page order. A result that is only whitespace is refused. Every failure in this branch surfaces as the single error "Error reading the PDF file".
  - TXT branch: returns the UTF-8-decoded bytes, or "Error reading TXT file" when they do not decode.
  - Any other suffix: "Unsupported file format. Only PDF and TXT are supported."
- `get_table_data`, the table projector. A string is first decoded as JSON. The quiz dict then yields one row per entry, in the dict's order. Each row holds the item's `mcq` as the question, its `options` as `label: text` segments joined by `" || "`, and its `correct` as the answer. A missing field takes its default: `""`, `{}` or `""`. Any failure returns `False` instead of raising.

Modules (one file each):

- `Wrappers` (`wrappers.dfy`): `Option` and `Result`.
- `PyStr` (`pystr.dfy`): the Python string operations the helpers use. These are `lower`, `endswith`, `strip` (with Python's whitespace set), `join` and `str` of an integer.
- `Json` (`json.dfy`): decoded JSON values, with objects as insertion-ordered entry lists. It also models `dict.get` and Python's `str()`/`repr()`.
- `ReadFile` (`read_file.dfy`): `read_file`. The spec function `Read` gives the result. The method `ReadUpload` is the page loop with its `+=`, proved equal to `Read`.
- `TableData` (`table_data.dfy`): `get_table_data`. The spec function `Table` gives the result. The method `GetTableData` is the `for` loop with its `append`, proved equal to `Table`.

Some things cannot be seen from here: the PDF library, the UTF-8 decoder and `json.loads`. They are parameters of the model:
- `pdf` gives the per-page extracted texts (`None` for a page without text), or `None` when the library raises.
- `decode` gives the decoded text, or `None` on invalid UTF-8.
- `parse` gives the decoded value, or `None` when the text is not JSON.

Two details of the PDF branch:
- Each page with text is followed by `"\n"`, so the text ends with a newline, and pages with no or empty text add nothing.
- A whitespace-only PDF and an unreadable PDF raise the same error, "Error reading the PDF file".

## Model

| member | source | states |
|---|---|---|
| `ReadFile.FormatOf` | src/mcqgenerator/utils.py:16-44 | the PDF branch is taken exactly when the name ends in `.pdf` in any mix of cases; the TXT branch exactly when it ends in `.txt`; every other name goes to the refusal |
| `ReadFile.ReadUpload` | src/mcqgenerator/utils.py:9-44 | the loop that appends each non-empty page text and `"\n"`, followed by the blank check and the branch errors, returns exactly `Read` for every upload, library output and decoder |
| `ReadFile.PdfTextAppend` | src/mcqgenerator/utils.py:21-24 | collecting the text of two runs of pages in turn gives the concatenation of their texts |
| `ReadFile.PdfTextAt` | src/mcqgenerator/utils.py:21-24 | the text is the earlier pages' text, then page k's contribution, then the later pages' text (page order is kept) |
| `ReadFile.PdfTextSkipsEmptyPage` | src/mcqgenerator/utils.py:22-24 | a page whose extraction is `None` or empty can be removed without changing the text |
| `ReadFile.PdfTextEmptyIff` | src/mcqgenerator/utils.py:19-24 | the collected text is empty if and only if no page produced non-empty text |
| `ReadFile.PageTextBlank` | src/mcqgenerator/utils.py:23-26 | a page's contribution is whitespace-only if and only if the page has no text or its text is whitespace-only |
| `ReadFile.PdfTextBlankIff` | src/mcqgenerator/utils.py:21-27 | the collected text is whitespace-only if and only if every page's extracted text is whitespace-only |
| `ReadFile.ReadPdf` | src/mcqgenerator/utils.py:16-33 | for a `.pdf` name the only error is the PDF error; success holds if and only if the library reads the file and some page has text that is not all whitespace, and the text is then the collected page text |
| `ReadFile.ReadTxt` | src/mcqgenerator/utils.py:36-40 | for a `.txt` name the result is exactly the decoded content, or the TXT error when decoding fails |
| `ReadFile.ReadUnsupported` | src/mcqgenerator/utils.py:43-44 | the unsupported-format error occurs if and only if the name ends in neither `.pdf` nor `.txt` (ignoring case), and it carries the message naming only PDF and TXT |
| `PyStr.LStripEmptyIffBlank` | src/mcqgenerator/utils.py:26 | `lstrip` leaves nothing if and only if the string is whitespace-only |
| `PyStr.RStripEmptyIffBlank` | src/mcqgenerator/utils.py:26 | `rstrip` leaves nothing if and only if the string is whitespace-only |
| `PyStr.StripEmptyIffBlank` | src/mcqgenerator/utils.py:26 | `not text.strip()` holds if and only if every character of the text is Python whitespace |
| `PyStr.Lower` | src/mcqgenerator/utils.py:16 | `lower()` keeps each character or maps an upper-case letter to its lower-case form, and leaves no upper-case ASCII letter |
| `PyStr.LowerEndsWith` | src/mcqgenerator/utils.py:16 | `name.lower().endswith(suffix)`, for a suffix without upper-case letters, is the case-insensitive suffix test |
| `PyStr.EndsWithExclusive` | src/mcqgenerator/utils.py:16-36 | no name ends in both `.pdf` and `.txt`, so testing `.pdf` first decides nothing for `.txt` names |
| `PyStr.JoinConcat` | src/mcqgenerator/utils.py:71-73 | joining two non-empty runs of parts gives their joins with one separator between them |
| `PyStr.JoinMatchesJoinFront` | src/mcqgenerator/utils.py:71-73 | the join built from the back equals the join built from the front: first part, then separator and the rest |
| `PyStr.JoinLength` | src/mcqgenerator/utils.py:71-73 | a join is as long as its parts plus one separator for each gap |
| `Json.LookupFinds` | src/mcqgenerator/utils.py:67-69 | `get` finds nothing if and only if no entry has the key; a value it finds is the value of the first entry with that key |
| `Json.LookupInDict` | src/mcqgenerator/utils.py:67-69 | when the keys are distinct, as in a dict, `get` returns the value of any entry that has the key |
| `PyStr.NatToString` | src/mcqgenerator/utils.py:72 | the decimal form of a natural number is a non-empty run of digits that starts with `0` only for zero |
| `PyStr.NatToStringValue` | src/mcqgenerator/utils.py:72 | the decimal digits of a natural number read back as that number |
| `PyStr.IntToStringValue` | src/mcqgenerator/utils.py:72 | `str(n)` for an integer reads back as `n` |
| `Json.StrOf` | src/mcqgenerator/utils.py:72 | what the f-string inserts for an option text: a string unchanged, `None`, `True` or `False` by name, an integer as a numeral that reads back as it, a list or dict in brackets or braces |
| `TableData.ProjectItemFields` | src/mcqgenerator/utils.py:66-79 | an item gives a row if and only if it is a dict whose `options`, when present, is a dict; the question and answer are the item's `mcq` and `correct` unchanged, `""` when absent; the options column is the joined options, `""` when absent |
| `TableData.GetTableData` | src/mcqgenerator/utils.py:50-85 | the loop that appends one row per quiz entry, with its early `False` exits, returns exactly `Table` for every input and decoder |
| `TableData.ProjectEntriesFails` | src/mcqgenerator/utils.py:66-85 | a single entry that cannot be read makes the whole projection fail, whatever entries come before or after it |
| `TableData.ProjectEntriesSome` | src/mcqgenerator/utils.py:61-85 | the loop gets through all entries if and only if every entry can be read |
| `TableData.ProjectEntriesRows` | src/mcqgenerator/utils.py:61-81 | a successful projection has exactly one row per entry, and row i is entry i's row |
| `TableData.TableOfDict` | src/mcqgenerator/utils.py:61-85 | for a quiz dict with N entries the result is `False` if and only if some entry cannot be read; otherwise it is exactly N rows in the dict's order |
| `TableData.TableOfEmptyDict` | src/mcqgenerator/utils.py:61-81 | an empty quiz dict gives an empty row list, not `False` |
| `TableData.TableOfString` | src/mcqgenerator/utils.py:56-59 | a string that is not JSON, or that decodes to something other than an object, gives `False`; a decoded object is projected as if it had been passed directly |
| `TableData.TableOfNonDict` | src/mcqgenerator/utils.py:66-85 | a list, number, boolean or null quiz gives `False` |
| `TableData.JoinOptionsShape` | src/mcqgenerator/utils.py:71-73 | no options give `""`; one option gives `label: text`; more give the first segment, the double-bar separator (space, two bars, space) and the join of the rest, so the options keep their order |
| `TableData.JoinOptionsLength` | src/mcqgenerator/utils.py:71-73 | the options column is as long as its segments plus four characters for each separator |
| `TableData.ExampleOptions` | src/mcqgenerator/utils.py:71-73 | the options `{"A": "x", "B": "y"}` are shown as `A: x`, the double-bar separator and `B: y` |
| `TableData.ExampleRow` | src/mcqgenerator/utils.py:64-79 | the item `{"mcq": "Q1", "options": {"A": "x", "B": "y"}, "correct": "A"}` gives the row `Q1`; `A: x`, the double-bar separator and `B: y`; `A` |

## Left out

- The Streamlit page (`StreamlitAPP.py`) is not part of this model. That covers the widgets, the missing-file and empty-subject warnings, the dataframe and the CSV download. The page treats an empty row list as falsy, like `False`; that is the caller's choice, not the helper's.
- The LangChain and OpenAI calls (`src/mcqgenerator/MCQGenerator.py`), the environment keys, and the token and cost report are not part of this model. They are foreign calls and floating-point values.
- PyPDF2's parsing, UTF-8 decoding, reading the upload stream, and `json.loads` are parameters, not definitions. A decoded JSON object is meant to be a dict, whose keys are distinct; the `Value` type does not enforce this. Collapsing duplicate keys in the text is left to `json.loads`, and `Json.LookupInDict` says what `get` returns when the keys are distinct.
- `traceback.print_exc()` is logging to standard error and is left out.
- `PyStr.Lower`: only ASCII letters are lower-cased. No character outside ASCII lower-cases to a string ending in `.`, `p`, `d`, `f`, `t` or `x`, so the suffix tests are unaffected.
- `Json.Repr`: a string nested inside a list or dict is always written in single quotes, with no escaping. Python picks double quotes when the string holds a single quote, and it escapes special characters.
- JSON numbers are integers. Floating-point option texts and their `str()` forms are not modelled.
- Keys that are not strings cannot appear: a quiz dict passed in directly is modelled as a JSON object.
