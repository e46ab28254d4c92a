/**
 * `FileGenerator`: the text file a user receives with the recognised
 * passport data. The two clock readings (`datetime.now()` is called once for
 * the content and once for the file name) are parameters.
 */
module FileGenerator {
  import opened TextUtil
  import opened Timestamps
  import Handlers
  import PassportParser

  /** What a missing passport field, and a missing username or user id, print as. */
  const Unset := "не указано"
  const UnsetUser := "не указан"

  /** A ruler line: fifty `=`. */
  const Rule: string := Repeat('=', 50)

  /** The labels of the eight passport lines, in the order the chat reply uses. */
  const FieldLabels: seq<string> :=
    ["ФИО: ", "Дата рождения: ", "Место рождения: ", "Серия паспорта: ",
     "Номер паспорта: ", "Код подразделения: ", "Дата выдачи: ", "Кем выдан: "]

  /** The first thirteen lines: the heading and the passport fields. */
  function PassportSection(passport: map<string, string>): seq<string> {
    [Rule, "ДАННЫЕ ПАСПОРТА ГРАЖДАНИНА РФ", Rule, "",
     "ФИО: " + Get(passport, "full_name", Unset),
     "Дата рождения: " + Get(passport, "birth_date", Unset),
     "Место рождения: " + Get(passport, "birth_place", Unset),
     "Серия паспорта: " + Get(passport, "passport_series", Unset),
     "Номер паспорта: " + Get(passport, "passport_number", Unset),
     "Код подразделения: " + Get(passport, "passport_code", Unset),
     "Дата выдачи: " + Get(passport, "issue_date", Unset),
     "Кем выдан: " + Get(passport, "authority", Unset),
     ""]
  }

  /** The last nine lines: who saved the data and when. */
  function SavingSection(user: map<string, string>, now: Stamp): seq<string> {
    [Rule, "ИНФОРМАЦИЯ О СОХРАНЕНИИ", Rule, "",
     "Username: " + Get(user, "username", UnsetUser),
     "User ID: " + Get(user, "user_id", UnsetUser),
     "Дата обработки: " + LongStamp(now),
     "", Rule]
  }

  /** The `content` list of `_generate_file_content`. */
  function ContentLines(passport: map<string, string>, user: map<string, string>, now: Stamp): seq<string> {
    PassportSection(passport) + SavingSection(user, now)
  }

  /** `_generate_file_content`: the lines joined by newlines. */
  function Content(passport: map<string, string>, user: map<string, string>, now: Stamp): string {
    Join(ContentLines(passport, user, now), "\n")
  }

  /** The file name built in `create_passport_text_file`. */
  function FileName(user: map<string, string>, now: Stamp): string {
    "passport_data_" + Get(user, "user_id", "unknown") + "_" + CompactStamp(now) + ".txt"
  }

  /** Index of the `Дата обработки:` line. */
  const DateLine := 19

  /**
   * The passport lines, in order, carry the labels and read the keys of the
   * chat reply; a missing field prints as `не указано`.
   */
  lemma PassportSectionFields(passport: map<string, string>)
    ensures |PassportSection(passport)| == 13
    ensures forall k :: 0 <= k < 8 ==>
      PassportSection(passport)[k + 4] == FieldLabels[k] + Get(passport, Handlers.ShownKeys[k], Unset)
  {
  }

  lemma RuleSingle()
    ensures NoNewline(Rule) && Rule != []
  {
  }

  lemma FieldLabelsSingle()
    ensures NoNewlines(FieldLabels)
  {
    assert NoNewline(FieldLabels[0]) && NoNewline(FieldLabels[1]) && NoNewline(FieldLabels[2]);
    assert NoNewline(FieldLabels[3]) && NoNewline(FieldLabels[4]) && NoNewline(FieldLabels[5]);
    assert NoNewline(FieldLabels[6]) && NoNewline(FieldLabels[7]);
  }

  lemma PassportSectionSingle(passport: map<string, string>)
    requires NoNewlineValues(passport)
    ensures NoNewlines(PassportSection(passport))
  {
    RuleSingle();
    PassportSectionFields(passport);
    assert NoNewline(Unset);
    assert NoNewline("ДАННЫЕ ПАСПОРТА ГРАЖДАНИНА РФ");
    FieldLabelsSingle();
    var s := PassportSection(passport);
    forall i | 4 <= i < 12 ensures NoNewline(s[i]) {
      assert NoNewline(FieldLabels[i - 4]);
      assert NoNewline(Get(passport, Handlers.ShownKeys[i - 4], Unset));
      assert s[i] == FieldLabels[i - 4] + Get(passport, Handlers.ShownKeys[i - 4], Unset);
    }
  }

  lemma SavingSectionSingle(user: map<string, string>, now: Stamp)
    requires NoNewlineValues(user) && ValidStamp(now)
    ensures NoNewlines(SavingSection(user, now))
  {
    RuleSingle();
    LongStampShape(now);
    assert NoNewline(UnsetUser);
    assert NoNewline("ИНФОРМАЦИЯ О СОХРАНЕНИИ");
    assert NoNewline("Username: ") && NoNewline("User ID: ") && NoNewline("Дата обработки: ");
    assert NoNewline(Get(user, "username", UnsetUser)) && NoNewline(Get(user, "user_id", UnsetUser));
  }

  /**
   * With one-line values and a valid clock reading the file has exactly 22
   * lines; the first and the last are fifty `=`; lines 4 to 11 are the eight
   * passport fields in the chat reply's order, `не указано` when missing;
   * lines 17 to 19 are the username and user id (`не указан` when missing)
   * and the processing date.
   */
  lemma ContentShape(passport: map<string, string>, user: map<string, string>, now: Stamp)
    requires NoNewlineValues(passport) && NoNewlineValues(user) && ValidStamp(now)
    ensures var out := Split(Content(passport, user, now), '\n');
      |out| == 22 && out[0] == Rule && out[21] == Rule &&
      |Rule| == 50 && (forall i :: 0 <= i < 50 ==> Rule[i] == '=') &&
      (forall k :: 0 <= k < 8 ==> out[k + 4] == FieldLabels[k] + Get(passport, Handlers.ShownKeys[k], Unset)) &&
      out[17] == "Username: " + Get(user, "username", UnsetUser) &&
      out[18] == "User ID: " + Get(user, "user_id", UnsetUser) &&
      out[DateLine] == "Дата обработки: " + LongStamp(now)
  {
    var lines := ContentLines(passport, user, now);
    PassportSectionSingle(passport);
    SavingSectionSingle(user, now);
    PassportSectionFields(passport);
    assert NoNewlines(lines) by {
      forall i | 0 <= i < 22 ensures NoNewline(lines[i]) {
        if i < 13 {
          assert lines[i] == PassportSection(passport)[i];
        } else {
          assert lines[i] == SavingSection(user, now)[i - 13];
        }
      }
    }
    SplitJoin(lines);
    forall k | 0 <= k < 8
      ensures lines[k + 4] == FieldLabels[k] + Get(passport, Handlers.ShownKeys[k], Unset)
    {
      assert lines[k + 4] == PassportSection(passport)[k + 4];
    }
  }

  /** The clock reading changes the `Дата обработки:` line and no other. */
  lemma NowOnlyInDateLine(passport: map<string, string>, user: map<string, string>, t1: Stamp, t2: Stamp)
    ensures |ContentLines(passport, user, t1)| == |ContentLines(passport, user, t2)| == 22
    ensures forall i :: 0 <= i < 22 && i != DateLine ==>
      ContentLines(passport, user, t1)[i] == ContentLines(passport, user, t2)[i]
    ensures LongStamp(t1) != LongStamp(t2) ==>
      ContentLines(passport, user, t1)[DateLine] != ContentLines(passport, user, t2)[DateLine]
  {
    var a, b := SavingSection(user, t1), SavingSection(user, t2);
    assert forall i :: 0 <= i < 9 && i != 6 ==> a[i] == b[i];
    var p := "Дата обработки: ";
    if LongStamp(t1) != LongStamp(t2) {
      assert a[6][|p|..] == LongStamp(t1) && b[6][|p|..] == LongStamp(t2);
    }
  }

  /**
   * The text file of a parse result shows `не указано` for the series, the
   * number and the code, because the parser stores them under other keys.
   */
  lemma ParseResultContent(text: string, user: map<string, string>, now: Stamp)
    requires NoNewlineValues(user) && ValidStamp(now)
    ensures var out := Split(Content(PassportParser.Parse(text, None), user, now), '\n');
      |out| == 22 && forall k :: 3 <= k < 6 ==> out[k + 4] == FieldLabels[k] + Unset
  {
    PassportParser.ParseSingleLine(text);
    Handlers.ShownNumbersNotParsed();
    ContentShape(PassportParser.Parse(text, None), user, now);
  }

  /**
   * The file name is `passport_data_`, the user id (`unknown` when missing),
   * `_`, the compact clock reading and `.txt`; the clock reading can be read
   * back from it.
   */
  lemma FileNameShape(user: map<string, string>, now: Stamp)
    requires ValidStamp(now) && now.year >= 1000
    ensures var n := FileName(user, now);
      var id := Get(user, "user_id", "unknown");
      |n| == 34 + |id| &&
      n[..14] == "passport_data_" && n[14..14 + |id|] == id && n[14 + |id|] == '_' &&
      ReadCompact(n[15 + |id|..|n| - 4]) == Some(now) && n[|n| - 4..] == ".txt"
  {
    var id := Get(user, "user_id", "unknown");
    var c := CompactStamp(now);
    CompactRoundTrip(now);
    var n := FileName(user, now);
    assert n == "passport_data_" + id + "_" + c + ".txt";
    assert n[..14] == "passport_data_";
    assert n[14..14 + |id|] == id;
    assert n[15 + |id|..|n| - 4] == c;
    assert n[|n| - 4..] == ".txt";
  }
}
