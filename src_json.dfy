/**
 * The string printer of src/json.cpp. Its loader is the code of
 * transport-catalogue/json.cpp up to comments, and its Node accessors
 * (GetValueOrThrow and holds_alternative rather than AsVal on data_) behave
 * the same; both are the ones of module Json. What differs is that each
 * character's escape comes from TranscriptEscapedSimbol.
 */
module SrcJson {
  import opened Wrappers
  import Json

  /** TranscriptEscapedSimbol: the two-character escape of the five specials, the character itself otherwise. */
  function TranscriptEscapedSimbol(c: char): (r: string)
    ensures |r| == 1 <==> c !in {'"', '\\', '\n', '\r', '\t'}
    ensures |r| == 1 ==> r == [c]
    ensures |r| != 1 ==> |r| == 2 && r[0] == '\\' && Json.ReadEscapeSequence(r[1]) == Ok(c)
  {
    match c
    case '"' => "\\\""
    case '\\' => "\\\\"
    case '\n' => "\\n"
    case '\r' => "\\r"
    case '\t' => "\\t"
    case _ => [c]
  }

  /** The escaped text of a whole string: each character transcribed in turn. */
  function Transcript(str: string): string {
    if str == [] then [] else TranscriptEscapedSimbol(str[0]) + Transcript(str[1..])
  }

  lemma {:induction false} TranscriptAppend(a: string, b: string)
    ensures Transcript(a + b) == Transcript(a) + Transcript(b)
    decreases |a|
  {
    if a != [] {
      assert (a + b)[0] == a[0] && (a + b)[1..] == a[1..] + b;
      TranscriptAppend(a[1..], b);
      assert Transcript(a + b) == TranscriptEscapedSimbol(a[0]) + (Transcript(a[1..]) + Transcript(b));
    } else {
      assert a + b == b;
    }
  }

  /** PrintNode::Print(const string&): the transcribed characters between double quotes. */
  method PrintString(str: string) returns (out: string)
    ensures out == "\"" + Transcript(str) + "\""
  {
    var escaped := [];
    for i := 0 to |str|
      invariant escaped == Transcript(str[..i])
    {
      var c := str[i];
      assert Transcript([c]) == TranscriptEscapedSimbol(c) by { assert [c][1..] == []; }
      assert str[..i + 1] == str[..i] + [c];
      TranscriptAppend(str[..i], [c]);
      escaped := escaped + TranscriptEscapedSimbol(c);
    }
    assert str[..|str|] == str;
    out := "\"" + escaped + "\"";
  }

  /** The transcription writes exactly what the escape of the loader's module would. */
  lemma {:induction false} TranscriptIsEscape(str: string)
    ensures Transcript(str) == Json.Escape(str)
    decreases |str|
  {
    if str != [] {
      TranscriptIsEscape(str[1..]);
      assert TranscriptEscapedSimbol(str[0]) == Json.EscapeChar(str[0]);
    }
  }

  /** A string printed by this revision, followed by anything, loads back unchanged. */
  lemma PrintedStringLoads(str: string, rest: string)
    ensures var printed := "\"" + Transcript(str) + "\"";
            Json.Load(printed + rest) == Ok(Json.String(str))
  {
    TranscriptIsEscape(str);
    Json.StringRoundTrip(str, rest);
  }
}
