/**
 `parse_csv_row`: one row of comma-separated fields, with quoted fields and doubled quotes.
 Every way of writing fields as a row is read back as those fields: a field may be quoted,
 with every quote in it doubled, or plain, when it holds no comma and does not begin with a
 quote. A quote inside a plain field is an ordinary character.
 */
module CsvRow {
  import opened Sequences

  const QUOTE := '"'

  /** The fields from here on, when `field` is the text of the current field so far. */
  function Parse(field: string, inQuotes: bool, s: string): seq<string>
    decreases |s|
  {
    if s == "" then [field]
    else if s[0] == QUOTE then
      if !inQuotes then (if field != "" then Parse(field + [QUOTE], false, s[1..]) else Parse("", true, s[1..]))
      else if |s| > 1 && s[1] == QUOTE then Parse(field + [QUOTE], true, s[2..])
      else Parse(field, false, s[1..])
    else if s[0] == ',' && !inQuotes then [field] + Parse("", false, s[1..])
    else Parse(field + [s[0]], inQuotes, s[1..])
  }

  function ParseRow(s: string): seq<string> {
    Parse("", false, s)
  }

  /** A field as it may stand in a row. */
  datatype Field = Quoted(text: string) | Plain(text: string) {
    predicate Valid() {
      Plain? ==> ',' !in text && (text != "" ==> text[0] != QUOTE)
    }
  }

  predicate AllValid(fields: seq<Field>) {
    forall i | 0 <= i < |fields| :: fields[i].Valid()
  }

  /** `text` with its quotes doubled, followed by `rest`. */
  function Doubled(text: string, rest: string): string {
    if text == "" then rest
    else if text[0] == QUOTE then [QUOTE, QUOTE] + Doubled(text[1..], rest)
    else [text[0]] + Doubled(text[1..], rest)
  }

  function WriteField(field: Field, rest: string): string {
    match field
    case Quoted(text) => [QUOTE] + Doubled(text, [QUOTE] + rest)
    case Plain(text) => text + rest
  }

  function WriteRow(fields: seq<Field>): string
    requires fields != []
  {
    WriteField(fields[0], if |fields| == 1 then "" else "," + WriteRow(fields[1..]))
  }

  function Texts(fields: seq<Field>): seq<string> {
    if fields == [] then [] else [fields[0].text] + Texts(fields[1..])
  }

  predicate EndsField(rest: string) {
    rest == "" || rest[0] == ','
  }

  lemma Longer(field: string, text: string)
    requires text != ""
    ensures field + [text[0]] + text[1..] == field + text
  {
  }

  lemma {:induction false} ParseDoubled(field: string, text: string, rest: string)
    requires EndsField(rest)
    ensures Parse(field, true, Doubled(text, [QUOTE] + rest)) == Parse(field + text, false, rest)
    decreases |text|
  {
    if text == "" {
      assert ([QUOTE] + rest)[1..] == rest;
      assert field + text == field;
    } else {
      var s := Doubled(text[1..], [QUOTE] + rest);
      ParseDoubled(field + [text[0]], text[1..], rest);
      Longer(field, text);
      if text[0] == QUOTE {
        assert ([QUOTE, QUOTE] + s)[2..] == s;
      } else {
        assert ([text[0]] + s)[1..] == s;
      }
    }
  }

  lemma {:induction false} ParsePlain(field: string, text: string, rest: string)
    requires ',' !in text && (text != "" && text[0] == QUOTE ==> field != "")
    ensures Parse(field, false, text + rest) == Parse(field + text, false, rest)
    decreases |text|
  {
    if text == "" {
      assert text + rest == rest && field + text == field;
    } else {
      assert (text + rest)[1..] == text[1..] + rest;
      ParsePlain(field + [text[0]], text[1..], rest);
      Longer(field, text);
    }
  }

  lemma ParseField(field: Field, rest: string)
    requires field.Valid() && EndsField(rest)
    ensures Parse("", false, WriteField(field, rest)) == Parse(field.text, false, rest)
  {
    assert "" + field.text == field.text;
    match field
    case Quoted(text) =>
      var s := Doubled(text, [QUOTE] + rest);
      assert ([QUOTE] + s)[1..] == s;
      ParseDoubled("", text, rest);
    case Plain(text) =>
      ParsePlain("", text, rest);
  }

  /** A row is read back as the texts of its fields, however each of them is written. */
  lemma {:induction false} ParseUndoesWriting(fields: seq<Field>)
    requires fields != [] && AllValid(fields)
    ensures ParseRow(WriteRow(fields)) == Texts(fields)
  {
    if |fields| == 1 {
      ParseField(fields[0], "");
    } else {
      var rest := WriteRow(fields[1..]);
      ParseField(fields[0], "," + rest);
      assert ("," + rest)[1..] == rest;
      ParseUndoesWriting(fields[1..]);
    }
  }

  // ----- the loop of the source -----

  method ParseCsvRow(input: string) returns (fields: seq<string>)
    ensures fields == ParseRow(input)
  {
    fields := [];
    var field := "";
    var inQuotes := false;
    var i := 0;
    assert input[0..] == input;
    while i < |input|
      invariant i <= |input|
      invariant ParseRow(input) == fields + Parse(field, inQuotes, input[i..])
    {
      ghost var s := input[i..];
      assert s[0] == input[i] && s[1..] == input[i + 1..];
      assert i + 1 < |input| ==> s[1] == input[i + 1] && s[2..] == input[i + 2..];
      var ch := input[i];
      if ch == QUOTE {
        if !inQuotes {
          if field != "" {
            field := field + [QUOTE];
          } else {
            inQuotes := true;
          }
        } else if i + 1 < |input| && input[i + 1] == QUOTE {
          field := field + [QUOTE];
          i := i + 1;
        } else {
          inQuotes := false;
        }
      } else if ch == ',' {
        if inQuotes {
          field := field + [','];
        } else {
          Regroup(fields, [field], Parse("", false, s[1..]));
          fields := fields + [field];
          field := "";
        }
      } else {
        field := field + [ch];
      }
      i := i + 1;
    }
    fields := fields + [field];
  }
}
