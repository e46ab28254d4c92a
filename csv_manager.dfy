/**
 * `CSVManager`: the header written when the table is created and the row
 * appended for every saved passport. The clock reading is a parameter; the
 * file itself and the `csv` quoting are not part of this model.
 */
module CsvManager {
  import opened TextUtil
  import opened Timestamps
  import Handlers
  import PassportParser
  import FileGenerator

  /** The header row, eleven columns. */
  const Header: seq<string> :=
    ["ФИО", "Дата рождения", "Место рождения", "Серия паспорта", "Номер паспорта",
     "Код подразделения", "Дата выдачи", "Кем выдан", "Username Telegram", "User ID",
     "Дата добавления"]

  /** `row_data` of `save_passport_data`; a missing value becomes the empty string. */
  function Row(passport: map<string, string>, user: map<string, string>, now: Stamp): seq<string> {
    [Get(passport, "full_name", ""),
     Get(passport, "birth_date", ""),
     Get(passport, "birth_place", ""),
     Get(passport, "passport_series", ""),
     Get(passport, "passport_number", ""),
     Get(passport, "passport_code", ""),
     Get(passport, "issue_date", ""),
     Get(passport, "authority", ""),
     Get(user, "username", ""),
     Get(user, "user_id", ""),
     LongStamp(now)]
  }

  /**
   * Row and header both have eleven columns, and they line up: column `k < 8`
   * holds the passport field the chat reply shows `k`-th, and its header is
   * the label the text file prints for that field; then the username, the
   * user id and the time of saving.
   */
  lemma RowMatchesHeader(passport: map<string, string>, user: map<string, string>, now: Stamp)
    ensures |Header| == |Row(passport, user, now)| == 11
    ensures forall k :: 0 <= k < 8 ==>
      Row(passport, user, now)[k] == Get(passport, Handlers.ShownKeys[k], "") &&
      Header[k] + ": " == FileGenerator.FieldLabels[k]
    ensures Row(passport, user, now)[8] == Get(user, "username", "")
    ensures Row(passport, user, now)[9] == Get(user, "user_id", "")
    ensures Row(passport, user, now)[10] == LongStamp(now)
  {
    assert Header[0] + ": " == FileGenerator.FieldLabels[0];
    assert Header[1] + ": " == FileGenerator.FieldLabels[1];
    assert Header[2] + ": " == FileGenerator.FieldLabels[2];
    assert Header[3] + ": " == FileGenerator.FieldLabels[3];
    assert Header[4] + ": " == FileGenerator.FieldLabels[4];
    assert Header[5] + ": " == FileGenerator.FieldLabels[5];
    assert Header[6] + ": " == FileGenerator.FieldLabels[6];
    assert Header[7] + ": " == FileGenerator.FieldLabels[7];
  }

  /**
   * Where a passport field is present, the text file's line for it is the
   * column's header, `: ` and the column's value; the user id and the clock
   * reading also agree with the text file written at the same moment.
   */
  lemma RowAgreesWithTextFile(passport: map<string, string>, user: map<string, string>, now: Stamp)
    ensures var row := Row(passport, user, now);
      var lines := FileGenerator.ContentLines(passport, user, now);
      |lines| == 22 &&
      (forall k :: 0 <= k < 8 && Handlers.ShownKeys[k] in passport ==> lines[k + 4] == Header[k] + ": " + row[k]) &&
      ("user_id" in user ==> lines[18] == Header[9] + ": " + row[9]) &&
      lines[FileGenerator.DateLine] == "Дата обработки: " + row[10]
  {
    RowMatchesHeader(passport, user, now);
    FileGenerator.PassportSectionFields(passport);
    var lines := FileGenerator.ContentLines(passport, user, now);
    forall k | 0 <= k < 8
      ensures lines[k + 4] == FileGenerator.FieldLabels[k] + Get(passport, Handlers.ShownKeys[k], FileGenerator.Unset)
    {
      assert lines[k + 4] == FileGenerator.PassportSection(passport)[k + 4];
    }
    assert Header[9] + ": " == "User ID: ";
  }

  /** Empty records give ten empty columns and the time of saving. */
  lemma EmptyRow(now: Stamp)
    ensures Row(map[], map[], now) == ["", "", "", "", "", "", "", "", "", "", LongStamp(now)]
  {
  }

  /**
   * A parse result has no `passport_series`, `passport_number` or
   * `passport_code` key, so those three columns are empty for every text.
   */
  lemma ParseResultRow(text: string, user: map<string, string>, now: Stamp)
    ensures var row := Row(PassportParser.Parse(text, None), user, now);
      row[3] == "" && row[4] == "" && row[5] == ""
  {
    var r := PassportParser.Parse(text, None);
    Handlers.ShownNumbersNotParsed();
    assert Handlers.ShownKeys[3] !in r && Handlers.ShownKeys[4] !in r && Handlers.ShownKeys[5] !in r;
    RowMatchesHeader(r, user, now);
  }

  /** The clock reading decides the last column and nothing else. */
  lemma NowOnlyInLastColumn(passport: map<string, string>, user: map<string, string>, t1: Stamp, t2: Stamp)
    ensures Row(passport, user, t1)[..10] == Row(passport, user, t2)[..10]
    ensures Row(passport, user, t1)[10] == LongStamp(t1)
  {
  }
}
