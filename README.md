# Passport parser bot: a Dafny model of the text core

The repository is a Telegram bot. It receives a photo or document of a Russian
passport page, runs OCR on it, and extracts the passport fields from the
recognised text with `RussianPassportParser`. It shows them in the chat and
saves them as a text file and as a CSV row. This project models the part of
that pipeline that works on text and proves properties of it:

- `_clean_text` collapses whitespace, upper-cases, strips, and then applies
  the fixed OCR-correction table in insertion order. It is modelled as the
  method `TextCleaning.CleanText`, whose loop is proved against the function
  `Cleaned`.
- The eight `_extract_*` functions and `parse` are modelled in
  `PassportParser`. They use hand-written models of the regular-expression
  searches they perform: leftmost match, greedy runs, `findall` without
  overlaps, and `\b` as a word-character test.
- From the bot handler (`Handlers`), the model covers:
  - the extension check on incoming documents and its refusal message;
  - `format_passport_data`, which builds the chat reply.
- `get_file_extension`, together with the POSIX `os.path.splitext` it relies
  on (`FileHandlers`).
- The text file (`FileGenerator`): `_generate_file_content` and the file name
  built in `create_passport_text_file`.
- The CSV header and the row `save_passport_data` writes (`CsvManager`).
- The two `strftime` formats used by the outputs (`Timestamps`).

Shared string helpers live in `TextUtil`. They model `in` on strings,
`"\n".join`, `str.split` on one character, `dict.get`, and `str()` of a
natural number.

Proved facts that matter for the system as written:

- Cleaning rewrites every digit except `2` and `7` into a letter before any
  extractor runs. So every date the birth-date and issue-date extractors
  report has month 22, 27, 72 or 77 (`PassportParser.CleanedDatesHaveNoMonth`),
  and a plain date such as `18.11.2009` is not recognised
  (`PassportParser.BirthDateExample`).
- The parser stores the series and number under `series_number` and the code
  under `code`. The chat reply, the text file and the CSV row look them up
  as `passport_series`, `passport_number` and `passport_code`. So for every
  successful parse these three show `не распознано`, `не указано` and the
  empty string respectively (`Handlers.ParseResultHidesNumbers`,
  `FileGenerator.ParseResultContent`, `CsvManager.ParseResultRow`).

The parser as written is small. The name is one three-word regular
expression, with a fixed test name returned first when any of three marker
words occurs. The series and
number come from one ten-digit search. The gender is stored under the key
`gender`. The birth place and the authority are fixed answers chosen by a
keyword.

## Model

| member | source | states |
|---|---|---|
| TextCleaning.CleanText | src/parsers/passport_parser.py:39-46 | The loop (collapse, upper-case, strip, then one `replace` per table entry in insertion order) returns `Cleaned(text)`, and the result is tidy: single plain spaces, none at either end. |
| TextCleaning.CollapseLayout | src/parsers/passport_parser.py:40 | After `re.sub(r'\s+', ' ', …)` the only whitespace is `' '`, and no two spaces are adjacent. |
| TextCleaning.CollapseRun | src/parsers/passport_parser.py:40 | A maximal whitespace run between two texts becomes one `' '` in its place, and the texts on either side are collapsed on their own. This covers a run at the start or the end too. |
| TextCleaning.CollapseKeepsVisible | src/parsers/passport_parser.py:40 | Collapsing whitespace removes and adds only whitespace: the non-whitespace characters stay the same, in order. |
| TextCleaning.CollapseTidy | src/parsers/passport_parser.py:40 | A text that already has single plain spaces is left unchanged by the substitution. |
| TextCleaning.UpperAllLayout | src/parsers/passport_parser.py:41 | `upper()` keeps the length and the whitespace positions, and its result is fixed by a second `upper()`. |
| TextCleaning.StripTidy | src/parsers/passport_parser.py:41 | `strip()` of a single-spaced text is tidy, and keeps upper case. |
| TextCleaning.NormalizeTidy | src/parsers/passport_parser.py:40-41 | The first two statements already leave a tidy, upper-case text. |
| TextCleaning.ReplaceSameLength | src/parsers/passport_parser.py:44 | `replace` with a pattern and a value of equal length keeps the length. Every changed character comes from the pattern and becomes a character of the value. |
| TextCleaning.ReplaceChar | src/parsers/passport_parser.py:44 | `replace` of one character by another is the character map that swaps that character. |
| TextCleaning.ReplaceAbsent | src/parsers/passport_parser.py:44 | `replace` leaves a text without the pattern unchanged. |
| TextCleaning.TableWellFormed | src/parsers/passport_parser.py:10-13 | Every key of the table is non-empty and as long as its value, and no key or value holds whitespace. |
| TextCleaning.ApplyTableLayout | src/parsers/passport_parser.py:43-44 | The replacement loop keeps the length and the whitespace positions. |
| TextCleaning.TablePrefixIsCharMap | src/parsers/passport_parser.py:43-44 | The first `k` one-digit entries, applied in order, map each character through `OcrDigit` if its key is among them and leave it unchanged otherwise. |
| TextCleaning.DigitEntriesAreOcrDigit | src/parsers/passport_parser.py:10-12 | The eight digit entries together act as the character map `OcrDigit`. |
| TextCleaning.NoUfisAfterReplace | src/parsers/passport_parser.py:44 | After `replace('УФИС', 'УФМС')` the text holds no `УФИС`, not even one formed across a replacement. |
| TextCleaning.CleanedTidy | src/parsers/passport_parser.py:39-46 | A cleaned text has single plain spaces and none at either end. |
| TextCleaning.CleanedDigits | src/parsers/passport_parser.py:10-12 | The only digits left in a cleaned text are `2` and `7`. |
| TextCleaning.CleanedHasNoUfis | src/parsers/passport_parser.py:12 | A cleaned text never contains `УФИС`. |
| TextCleaning.CleanedUpper | src/parsers/passport_parser.py:41 | A cleaned text is fixed by `upper()`. |
| TextCleaning.CleanedIdempotent | src/parsers/passport_parser.py:39-46 | Cleaning a cleaned text changes nothing. |
| TextCleaning.CleanedEmpty | src/parsers/passport_parser.py:39-46 | Cleaning the empty text gives the empty text. |
| TextCleaning.CleanedDateExample | src/parsers/passport_parser.py:39-46 | `18.11.2009` is cleaned to `IВ.II.2ООД`. |
| PassportParser.Search | src/parsers/passport_parser.py:54 | `re.search` returns the first position from `from` on where the pattern matches, or `None` exactly when it matches nowhere. |
| PassportParser.RunSpec | src/parsers/passport_parser.py:54 | A greedy run of a character class stays inside the text, consists only of that class, and ends at the end of the text or before a character outside the class. |
| PassportParser.NameAt | src/parsers/passport_parser.py:54 | A match reported at `i` fits the pattern `([А-Я]{3,})\s+([А-Я]{3,})\s+([А-Я]{3,})`. |
| PassportParser.NameAtGreedy | src/parsers/passport_parser.py:54 | If the pattern fits at `i` with some piece lengths, the engine's match exists there, has the same first four pieces, and has a last piece at least as long. |
| PassportParser.ExtractNameSpec | src/parsers/passport_parser.py:48-55 | A test-name marker gives the test name. Without a marker, the result is the sentinel exactly when the pattern matches nowhere; otherwise it is the greedy match at the leftmost matching position, with no match before it. |
| PassportParser.NameTextIsSlice | src/parsers/passport_parser.py:55 | On a single-spaced text, the three groups joined by spaces equal the matched piece of the text. |
| PassportParser.NameInTidyText | src/parsers/passport_parser.py:48-55 | On a single-spaced text, a name found by the search occurs in the text. |
| PassportParser.FindDatesSpec | src/parsers/passport_parser.py:58 | Every element of `findall` has the shape `DD.DD.DDDD` and occurs in the text. |
| PassportParser.NoDateFrom | src/parsers/passport_parser.py:58 | The date search from a position fails exactly when no date starts at or after that position. |
| PassportParser.BirthDateSpec | src/parsers/passport_parser.py:57-59 | The birth date is the sentinel exactly when the text has no date. Otherwise it is the leftmost date, with no date before it, and it has the date shape and occurs in the text. |
| PassportParser.IssueDateSpec | src/parsers/passport_parser.py:78-80 | The issue date is the next date that starts after the first date ends, or the sentinel when there is none. There is never an issue date without a birth date. An issue date has the date shape and occurs in the text. |
| PassportParser.CleanedDatesHaveNoMonth | src/parsers/passport_parser.py:20-28 | After cleaning, any birth or issue date found has month 22, 27, 72 or 77. |
| PassportParser.BirthDateExample | src/parsers/passport_parser.py:57-59 | Parsing the text `18.11.2009` gives the sentinel as the birth date. |
| PassportParser.DateAfterMarkExample | src/parsers/passport_parser.py:57-59 | A date right after the combining mark U+0483 is found, because that mark is not a word character for `\b`. |
| PassportParser.SeriesAtWithoutWhitespace | src/parsers/passport_parser.py:68 | With the optional `\s?` never available, the series pattern matches exactly at ten digits in a row and captures them. |
| PassportParser.WithoutSpacesKeeps | src/parsers/passport_parser.py:68 | `replace(' ', '')` leaves no `' '`. When `' '` was the only kind of whitespace, it leaves exactly the other characters, in order, and no whitespace. A text without `' '` is unchanged. |
| PassportParser.FormatSeriesWithoutSpaces | src/parsers/passport_parser.py:71 | Removing the spaces from the formatted `DD DD DDDDDD` gives back the ten digits. |
| PassportParser.SeriesNumberSpec | src/parsers/passport_parser.py:66-72 | On a text whose only whitespace is `' '`, the result is the sentinel exactly when the text without spaces has no ten digits in a row. Otherwise it is the leftmost such run, formatted as 12 characters with spaces at positions 2 and 5. |
| PassportParser.CodeSpec | src/parsers/passport_parser.py:74-76 | The code is the sentinel exactly when `\d{3}[\s-]\d{3}` matches nowhere. Otherwise it is the leftmost 7-character match, with its separator as found. |
| PassportParser.AuthorityUfisTestRedundant | src/parsers/passport_parser.py:82-85 | On a cleaned text, the `УФИС` keyword never changes the authority. |
| PassportParser.KeywordFieldsOfParse | src/parsers/passport_parser.py:61-88 | In a parse, the birth place and the authority are their fixed answers exactly when the cleaned text holds their keywords (for the authority, `УФМС` or `ОВД`), and the sentinel otherwise. The gender is `ЖЕН` exactly when `ЖЕН` or `F` occurs. |
| PassportParser.Parse | src/parsers/passport_parser.py:15-37 | A successful parse has exactly the eight keys `full_name` … `gender`, and its gender is `ЖЕН` or `МУЖ`. A raised exception gives the single key `error` holding the message. |
| PassportParser.ErrorIsNotAField | src/parsers/passport_parser.py:22-37 | The two outcomes of `parse` cannot be confused: `error` is not a field key. |
| PassportParser.ParseSingleLine | src/parsers/passport_parser.py:15-33 | Every value of a successful parse is a single line. |
| PassportParser.ParseEmpty | src/parsers/passport_parser.py:15-33 | Parsing the empty text gives the sentinel for every field and `МУЖ` for the gender. |
| PassportParser.ParseCleaned | src/parsers/passport_parser.py:20 | Parsing an already cleaned text gives the same record as parsing the original. |
| Timestamps.CompactRoundTrip | src/utils/file_generator.py:19 | `%Y%m%d_%H%M%S` of a valid clock reading with a four-digit year has 15 characters and reads back as that reading. |
| Timestamps.CompactInjective | src/utils/file_generator.py:19 | Different clock readings with four-digit years give different file-name stamps. |
| Timestamps.LongStampShape | src/utils/file_generator.py:55 | `%Y-%m-%d %H:%M:%S` is one line, with 19 characters for a four-digit year. |
| Timestamps.PadNatValue | src/utils/file_generator.py:19 | The zero-padded two-digit fields read back as their numbers. |
| FileHandlers.SplitExtParts | src/utils/file_handlers.py:26 | `splitext` gives a root and an extension that concatenate to the path. The extension is empty or a `.` followed by neither `.` nor `/`. |
| FileHandlers.SplitExtFound | src/utils/file_handlers.py:26 | The extension is non-empty exactly when the last path component has a `.` with a non-dot character before it. |
| FileHandlers.GetFileExtensionSpec | src/utils/file_handlers.py:20-27 | A photo gives `.jpg`. A named document with an extension keeps it, letter case included. Every other case gives `.dat`. The suffix always starts with a dot. |
| Handlers.LowerIdempotent | src/bot/handlers.py:92 | Lower-casing twice gives the same as lower-casing once. |
| Handlers.LowerNoCapitals | src/bot/handlers.py:92 | `lower()` leaves a text unchanged exactly when it has no capital letter. |
| Handlers.LowerExtensions | src/bot/handlers.py:92 | `.JPG`, `.Pdf` and `.TIFF` lower-case to `.jpg`, `.pdf` and `.tiff`. |
| Handlers.NoEmptyType | src/bot/handlers.py:91 | The empty extension is not an allowed type. |
| Handlers.AcceptedNeedsExtension | src/bot/handlers.py:91-94 | A document with no name, an empty name, or no extension in its last path component is refused. |
| Handlers.AcceptedSpec | src/bot/handlers.py:91-94 | An accepted document has a non-empty extension that starts with `.` and that, lower-cased, is in the allowed list. |
| Handlers.AcceptedKeepsExtension | src/bot/handlers.py:91-94 | An accepted document is stored with its own extension, letter case kept, and that extension lower-cased is allowed. |
| Handlers.RejectionMessageLines | src/bot/handlers.py:95-98 | The refusal has exactly two lines: the first names the extension, the second lists `.jpg, .jpeg, .png, .pdf, .tiff, .tif`. |
| Handlers.ReplyLinesSingle | src/bot/handlers.py:132-151 | With one-line values, every line of the reply list is one line. |
| Handlers.ReplyShape | src/bot/handlers.py:127-153 | Without `error`, the reply splits into 18 lines: the title, a blank line, the eight labelled fields in order, then the fixed advice. |
| Handlers.FormatReadsOnlyShownKeys | src/bot/handlers.py:127-153 | The reply depends only on `error` and the eight shown keys. |
| Handlers.FormatParseFailure | src/bot/handlers.py:129-130 | A failed parse is shown as `❌ ` followed by its message. |
| Handlers.ParseResultHidesNumbers | src/bot/handlers.py:138-140 | For every successful parse, the series, number and code lines of the reply show `не распознано`. |
| Handlers.ShownNumbersNotParsed | src/bot/handlers.py:138-140 | `passport_series`, `passport_number` and `passport_code` are not keys the parser writes. |
| FileGenerator.PassportSectionFields | src/utils/file_generator.py:40-47 | Lines 4 to 11 carry the labels and read the keys of the chat reply, in its order, with `не указано` when missing. |
| FileGenerator.ContentShape | src/utils/file_generator.py:33-60 | With one-line values, the file has exactly 22 lines. The first and last lines are fifty `=`. The fields follow in order. Lines 17 to 19 hold the username and user id (`не указан` when missing) and the processing date. |
| FileGenerator.NowOnlyInDateLine | src/utils/file_generator.py:55 | The clock reading changes only line 19, and it does change that line when the formatted readings differ. |
| FileGenerator.ParseResultContent | src/utils/file_generator.py:43-45 | For every successful parse, the series, number and code lines of the file show `не указано`. |
| FileGenerator.FileNameShape | src/utils/file_generator.py:19 | The file name is `passport_data_`, the user id (`unknown` when missing), `_`, a stamp that reads back as the clock reading, and `.txt`, so its length is 34 plus the id's length. |
| CsvManager.RowMatchesHeader | src/utils/csv_manager.py:20-55 | Header and row both have 11 columns. Column `k < 8` holds the `k`-th field of the chat reply (empty when missing), under the text file's label for it. Columns 8 to 10 hold the username, the user id and the time of saving. |
| CsvManager.RowAgreesWithTextFile | src/utils/csv_manager.py:43-55 | Where a field is present, the text file's line for it is the column header, `: ` and the cell. The user id and the time also agree with a text file written at the same moment. |
| CsvManager.EmptyRow | src/utils/csv_manager.py:43-55 | Empty records give ten empty cells and the time of saving. |
| CsvManager.ParseResultRow | src/utils/csv_manager.py:47-49 | For every successful parse, the series, number and code columns are empty. |
| CsvManager.NowOnlyInLastColumn | src/utils/csv_manager.py:54 | The clock reading decides the last column and no other. |

## Left out

- OCR, image handling, downloading and deleting files, file writes, logging,
  the asynchronous Telegram handlers and their other replies are left out:
  they are I/O or foreign code.
- `datetime.now()` is a parameter. The text file calls it twice (content and
  file name), and the model lets those be two different readings.
- Character classes and case mapping cover exact ranges, not the whole of
  Unicode:
  - `upper()` maps `a`-`z`, U+0430-U+044F and U+0450-U+045F, and keeps every
    other character. Python also maps other letters, such as U+0460-U+04FF,
    Latin-1 and Greek.
  - `lower()` maps `A`-`Z`, U+0410-U+042F and U+0400-U+040F, and keeps every
    other character. Python also maps other capitals.
  - Neither has special casing.
  - `\s` is the full `str.isspace()` set: U+0009-U+000D, U+001C-U+0020,
    U+0085, U+00A0, U+1680, U+2000-U+200A, U+2028, U+2029, U+202F, U+205F
    and U+3000.
  - `\d` is `0`-`9` only. Python also matches other Unicode decimal digits.
  - `\w`, used for `\b`, is `0`-`9`, `A`-`Z`, `a`-`z`, `_` and
    the Cyrillic letters U+0400-U+0481 and U+048A-U+04FF, leaving out
    U+0482-U+0489 as Python does. Python also counts other Unicode letters
    and digits.
  - `[А-Я]` is U+0410-U+042F, as in Python.
- `%Y` is written without padding, as the C library prints it.
- FileGenerator.FileNameShape: requires a year of at least 1000, because a
  shorter year makes the stamp ambiguous to read back.
- Timestamps.CompactRoundTrip: requires a year of at least 1000, for the same
  reason.
- Timestamps.CompactInjective: requires years of at least 1000, for the same
  reason.
- The `except` branch of `parse` is modelled by a parameter carrying the
  message of an exception some step raised. None of the modelled extractors
  can raise.
- `user_info` values are modelled as the strings `str()` gives for them, so
  `str(user_info.get('user_id', ''))` is the string lookup.
- CSV quoting by `csv.writer` and the append to the file are left out. The
  row is the list of cells.
- The `""` returned by `create_passport_text_file` when writing fails is left
  out, because it follows from I/O.
- `data_manager.py`, `document_processor.py` and the OCR processors are not
  part of this model.
- Some long literals are written in Dafny as concatenations of shorter
  pieces. Their values are unchanged.
