/**
 * From the bot's handlers: the file-type check `handle_document` applies to
 * an incoming document, and `format_passport_data`, which renders a parse
 * result as the reply message.
 */
module Handlers {
  import opened TextUtil
  import opened FileHandlers
  import PassportParser

  // ---------------------------------------------------------------------------
  // The document type check
  // ---------------------------------------------------------------------------

  const AllowedTypes: seq<string> := [".jpg", ".jpeg", ".png", ".pdf", ".tiff", ".tif"]

  /** `str.lower()` as a character map: `A`-`Z` and the Cyrillic capitals U+0400-U+042F; every other character is kept. */
  function LowerChar(c: char): char {
    if 'A' <= c <= 'Z' then (c as int + 32) as char
    else if '\U{410}' <= c <= '\U{42F}' then (c as int + 32) as char
    else if '\U{400}' <= c <= '\U{40F}' then (c as int + 80) as char
    else c
  }

  function Lower(s: string): (r: string)
    ensures |r| == |s| && forall i :: 0 <= i < |s| ==> r[i] == LowerChar(s[i])
  {
    seq(|s|, i requires 0 <= i < |s| => LowerChar(s[i]))
  }

  /** The characters `LowerChar` changes. */
  predicate Capital(c: char) {
    'A' <= c <= 'Z' || '\U{400}' <= c <= '\U{42F}'
  }

  /** Lower-casing a lower-cased text changes nothing. */
  lemma LowerIdempotent(s: string)
    ensures Lower(Lower(s)) == Lower(s)
  {
  }

  /** `lower()` leaves a text unchanged exactly when it has no capital letter. */
  lemma LowerNoCapitals(s: string)
    ensures Lower(s) == s <==> forall i :: 0 <= i < |s| ==> !Capital(s[i])
  {
  }

  /** Upper- and mixed-case extensions compare as their lower-case forms. */
  lemma LowerExtensions()
    ensures Lower(".JPG") == ".jpg" && Lower(".Pdf") == ".pdf" && Lower(".TIFF") == ".tiff"
  {
  }

  /** `os.path.splitext(document.file_name)[1].lower() if document.file_name else ''`. */
  function DocumentExtension(fileName: Option<string>): string {
    if fileName.Some? && fileName.value != "" then Lower(SplitExt(fileName.value).1) else ""
  }

  /** The document passes the check when its lower-cased extension is one of the allowed types. */
  predicate Accepted(fileName: Option<string>) {
    DocumentExtension(fileName) in AllowedTypes
  }

  lemma NoEmptyType()
    ensures "" !in AllowedTypes
  {
    forall t | t in AllowedTypes ensures |t| >= 4 {
    }
  }

  /**
   * A document without a name, or whose last path component has no dot after
   * some other character, has no extension and is refused.
   */
  lemma AcceptedNeedsExtension(fileName: Option<string>)
    ensures fileName.None? || fileName == Some("") ==> !Accepted(fileName)
    ensures fileName.Some? && !DottedName(BaseName(fileName.value)) ==> !Accepted(fileName)
  {
    NoEmptyType();
    if fileName.Some? {
      SplitExtFound(fileName.value);
    }
  }

  /** An accepted document has an extension starting with a dot, and its lower-cased form is in the list. */
  lemma AcceptedSpec(name: string)
    requires Accepted(Some(name))
    ensures var e := SplitExt(name).1;
      e != [] && e[0] == '.' && Lower(e) in AllowedTypes
  {
    NoEmptyType();
    SplitExtParts(name);
  }

  /**
   * An accepted document is stored under its own extension, letter case
   * kept, and that extension lower-cased is an allowed type.
   */
  lemma AcceptedKeepsExtension(name: string)
    requires Accepted(Some(name))
    ensures GetFileExtension("document", Some(name)) == SplitExt(name).1
    ensures Lower(GetFileExtension("document", Some(name))) in AllowedTypes
  {
    AcceptedSpec(name);
    GetFileExtensionSpec("document", Some(name));
  }

  /** The reply to a refused document, on two lines. */
  function RejectionMessage(ext: string): string {
    "\U{274C} Формат " + ext + " не поддерживается.\n" +
    "\U{1F4DD} Поддерживаемые форматы: " + Join(AllowedTypes, ", ")
  }

  /** The refusal names the extension on its first line and lists every allowed type on its second. */
  lemma RejectionMessageLines(ext: string)
    requires NoNewline(ext)
    ensures Split(RejectionMessage(ext), '\n') ==
      ["\U{274C} Формат " + ext + " не поддерживается.",
       "\U{1F4DD} Поддерживаемые форматы: " + ".jpg, .jpeg, .png, .pdf, .tiff, .tif"]
  {
    var first := "\U{274C} Формат " + ext + " не поддерживается.";
    var second := "\U{1F4DD} Поддерживаемые форматы: " + Join(AllowedTypes, ", ");
    AllowedTypesListed();
    RejectionPiecesSingle(ext);
    assert RejectionMessage(ext) == first + ['\n'] + second;
    SplitAfterPiece(first, '\n', second);
    SplitNoSeparator(second, '\n');
  }

  /** The second line lists the six allowed types, comma-separated. */
  lemma AllowedTypesListed()
    ensures Join(AllowedTypes, ", ") == ".jpg, .jpeg, .png, .pdf, .tiff, .tif"
  {
  }

  lemma RejectionPiecesSingle(ext: string)
    requires NoNewline(ext)
    ensures NoNewline("\U{274C} Формат " + ext + " не поддерживается.")
    ensures NoNewline("\U{1F4DD} Поддерживаемые форматы: " + ".jpg, .jpeg, .png, .pdf, .tiff, .tif")
  {
    assert NoNewline("\U{274C} Формат ") && NoNewline(" не поддерживается.");
    assert NoNewline("\U{1F4DD} Поддерживаемые форматы: ") && NoNewline(".jpg, .jpeg, .png, .pdf, .tiff, .tif");
  }

  // ---------------------------------------------------------------------------
  // format_passport_data
  // ---------------------------------------------------------------------------

  /** The passport fields the reply shows, in order, with their labels. */
  const ShownKeys: seq<string> :=
    ["full_name", "birth_date", "birth_place", "passport_series", "passport_number",
     "passport_code", "issue_date", "authority"]
  const ShownLabels: seq<string> :=
    ["\U{1F464} **ФИО:** ", "\U{1F382} **Дата рождения:** ", "\U{1F4CD} **Место рождения:** ",
     "\U{1F522} **Серия паспорта:** ", "\U{1F522} **Номер паспорта:** ",
     "\U{1F3F7}\U{FE0F} **Код подразделения:** ", "\U{1F4C5} **Дата выдачи:** ",
     "\U{1F3DB}\U{FE0F} **Кем выдан:** "]

  const ReplyTitle: seq<string> := ["\U{1F4C4} **Распознанные данные паспорта:**", ""]

  /** The fixed advice closing the reply; the longer lines are written in two pieces. */
  const ReplyAdvice: seq<string> :=
    ["",
     "---",
     "\U{1F50D} *Для улучшения точности:*",
     "- Убедитесь, что фото " + "содержит страницу с серией и номером",
     "- Серия и номер обычно " + "находятся на другой странице",
     "- Сфотографируйте " + "обе страницы разворота",
     "---",
     "\U{2705} Проверьте данные перед сохранением"]

  /** The eight field lines of the reply, label and value; a missing field shows as `не распознано`. */
  function FieldLines(data: map<string, string>): seq<string> {
    seq(8, k requires 0 <= k < 8 => ShownLabels[k] + Get(data, ShownKeys[k], PassportParser.Sentinel))
  }

  /** The `lines` list of `format_passport_data`. */
  function ReplyLines(data: map<string, string>): seq<string> {
    ReplyTitle + FieldLines(data) + ReplyAdvice
  }

  /** `format_passport_data`. */
  function FormatPassportData(data: map<string, string>): string {
    if "error" in data then "\U{274C} " + data["error"]
    else Join(ReplyLines(data), "\n")
  }

  lemma ReplyTitleSingle()
    ensures NoNewlines(ReplyTitle)
  {
    assert NoNewline(ReplyTitle[0]);
  }

  lemma ReplyAdviceSingle()
    ensures NoNewlines(ReplyAdvice)
  {
    assert NoNewline("- Убедитесь, что фото ") && NoNewline("содержит страницу с серией и номером");
    assert NoNewline("- Серия и номер обычно ") && NoNewline("находятся на другой странице");
    assert NoNewline("- Сфотографируйте ") && NoNewline("обе страницы разворота");
    assert NoNewline(ReplyAdvice[2]);
    assert NoNewline(ReplyAdvice[7]);
  }

  lemma ShownLabelsSingle()
    ensures NoNewlines(ShownLabels)
  {
    assert NoNewline(ShownLabels[0]) && NoNewline(ShownLabels[1]) && NoNewline(ShownLabels[2]);
    assert NoNewline(ShownLabels[3]) && NoNewline(ShownLabels[4]) && NoNewline(ShownLabels[5]);
    assert NoNewline(ShownLabels[6]) && NoNewline(ShownLabels[7]);
  }

  lemma FieldLinesSingle(data: map<string, string>)
    requires NoNewlineValues(data)
    ensures NoNewlines(FieldLines(data))
  {
    assert NoNewline(PassportParser.Sentinel);
    ShownLabelsSingle();
    forall k | 0 <= k < 8 ensures NoNewline(FieldLines(data)[k]) {
      var v := Get(data, ShownKeys[k], PassportParser.Sentinel);
      assert NoNewline(ShownLabels[k]) && NoNewline(v);
      assert FieldLines(data)[k] == ShownLabels[k] + v;
    }
  }

  lemma ReplyLinesSingle(data: map<string, string>)
    requires NoNewlineValues(data)
    ensures NoNewlines(ReplyLines(data))
  {
    ReplyTitleSingle();
    FieldLinesSingle(data);
    ReplyAdviceSingle();
    var r := ReplyLines(data);
    forall k | 0 <= k < |r| ensures NoNewline(r[k]) {
      if k < 2 {
        assert r[k] == ReplyTitle[k];
      } else if k < 10 {
        assert r[k] == FieldLines(data)[k - 2];
      } else {
        assert r[k] == ReplyAdvice[k - 10];
      }
    }
  }

  /**
   * Without an `error` key, and with one-line values, the reply is 18 lines:
   * a title, a blank line, the eight fields in order, each with its label
   * and `не распознано` when the key is missing, then the fixed advice.
   */
  lemma ReplyShape(data: map<string, string>)
    requires "error" !in data && NoNewlineValues(data)
    ensures var out := Split(FormatPassportData(data), '\n');
      |out| == 18 && out[..2] == ReplyTitle && out[10..] == ReplyAdvice &&
      forall k :: 0 <= k < 8 ==> out[k + 2] == ShownLabels[k] + Get(data, ShownKeys[k], PassportParser.Sentinel)
  {
    ReplyLinesSingle(data);
    SplitJoin(ReplyLines(data));
  }

  /**
   * The reply reads nothing of the record but `error` and the eight shown
   * keys: two records that agree on those get the same reply.
   */
  lemma FormatReadsOnlyShownKeys(d1: map<string, string>, d2: map<string, string>)
    requires ("error" in d1 <==> "error" in d2) && ("error" in d1 ==> d1["error"] == d2["error"])
    requires forall k :: k in ShownKeys ==> (k in d1 <==> k in d2) && (k in d1 ==> d1[k] == d2[k])
    ensures FormatPassportData(d1) == FormatPassportData(d2)
  {
    if "error" !in d1 {
      assert FieldLines(d1) == FieldLines(d2);
    }
  }

  /** A failed parse is shown as its message behind a cross mark. */
  lemma FormatParseFailure(text: string, message: string)
    ensures FormatPassportData(PassportParser.Parse(text, Some(message))) == "\U{274C} " + message
  {
  }

  /**
   * The parser stores the series and number under `series_number` and the
   * code under `code`, while the reply looks them up as `passport_series`,
   * `passport_number` and `passport_code`: for every successful parse those
   * three lines show `не распознано`.
   */
  lemma ParseResultHidesNumbers(text: string)
    ensures var out := Split(FormatPassportData(PassportParser.Parse(text, None)), '\n');
      |out| == 18 &&
      forall k :: 3 <= k < 6 ==> out[k + 2] == ShownLabels[k] + PassportParser.Sentinel
  {
    var r := PassportParser.Parse(text, None);
    PassportParser.ErrorIsNotAField();
    PassportParser.ParseSingleLine(text);
    ShownNumbersNotParsed();
    ReplyShape(r);
  }

  /** None of `passport_series`, `passport_number`, `passport_code` is a key the parser writes. */
  lemma ShownNumbersNotParsed()
    ensures forall k :: 3 <= k < 6 ==> ShownKeys[k] !in PassportParser.FieldKeys
  {
    forall f | f in PassportParser.FieldKeys
      ensures f != "passport_series" && f != "passport_number" && f != "passport_code"
    {
      assert |f| < 15 && (|f| == 13 ==> f[0] == 's');
    }
  }
}
