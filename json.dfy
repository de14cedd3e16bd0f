/**
 * The JSON document model and recursive-descent loader of
 * transport-catalogue/json.cpp (src/json.cpp holds the same loader, character
 * for character), a subset of RFC 8259: the number grammar of section 6 and
 * only five of the string escapes of section 7.
 *
 * The std::istream the loader reads is the text `s` with a cursor `pos`; a
 * loader returns the node and the cursor after it, or the exception it
 * throws. Each Parse* function is the reference meaning of one loader; the
 * Load* methods are the loaders' loops, proved equal to it.
 */
module Json {
  import opened Wrappers
  import opened CLib

  /** std::variant<nullptr_t, int, double, string, bool, Array, Dict>; a double is an exact real. */
  datatype Node =
    | Null
    | Int(intValue: int)
    | Double(doubleValue: real)
    | String(stringValue: string)
    | Bool(boolValue: bool)
    | Array(items: seq<Node>)
    | Dict(entries: map<string, Node>)

  /** A node together with the cursor just after its text. */
  type Loaded = Result<(Node, nat), Exception>

  // ---------------------------------------------------------------------
  // Strings

  /** ReadEscapeSequence: the character after a backslash; only n r " t \ are known. */
  function ReadEscapeSequence(c: char): (r: Result<char, Exception>)
    ensures r.Ok? <==> c in {'n', 'r', '"', 't', '\\'}
    ensures r.Err? ==> r.error == ParsingError
    ensures r.Ok? ==> EscapeChar(r.value) == ['\\', c]
  {
    match c
    case 'n' => Ok('\n')
    case 'r' => Ok('\r')
    case '"' => Ok('"')
    case 't' => Ok('\t')
    case '\\' => Ok('\\')
    case _ => Err(ParsingError)
  }

  /** LoadString after the opening quote, with `line` read so far. */
  function ParseString(s: string, pos: nat, line: string): (r: Loaded)
    requires pos <= |s|
    ensures r.Ok? ==> pos < r.value.1 <= |s| && r.value.0.String?
    ensures r.Err? ==> r.error == ParsingError
    decreases |s| - pos
  {
    if pos == |s| then Err(ParsingError)
    else if s[pos] == '\\' then
      if pos + 1 == |s| then Err(ParsingError)
      else
        match ReadEscapeSequence(s[pos + 1])
        case Err(e) => Err(e)
        case Ok(c) => ParseString(s, pos + 2, line + [c])
    else if s[pos] == '"' then Ok((String(line), pos + 1))
    else ParseString(s, pos + 1, line + [s[pos]])
  }

  /** The loaded string ends with the first unescaped quote. */
  lemma {:induction false} StringClosed(s: string, pos: nat, line: string)
    requires pos <= |s|
    ensures var r := ParseString(s, pos, line);
            r.Ok? ==> s[r.value.1 - 1] == '"'
    decreases |s| - pos
  {
    if pos < |s| && s[pos] == '\\' && pos + 1 < |s| && ReadEscapeSequence(s[pos + 1]).Ok? {
      StringClosed(s, pos + 2, line + [ReadEscapeSequence(s[pos + 1]).value]);
    } else if pos < |s| && s[pos] != '\\' && s[pos] != '"' {
      StringClosed(s, pos + 1, line + [s[pos]]);
    }
  }

  /** The printed form of one character: the five specials as two-character escapes. */
  function EscapeChar(c: char): (r: string)
    ensures |r| == 1 || |r| == 2
    ensures |r| == 1 <==> c !in {'"', '\\', '\n', '\r', '\t'}
    ensures |r| == 1 ==> r[0] == c
    ensures |r| == 2 ==> r[0] == '\\'
  {
    match c
    case '"' => "\\\""
    case '\\' => "\\\\"
    case '\n' => "\\n"
    case '\r' => "\\r"
    case '\t' => "\\t"
    case _ => [c]
  }

  /** The escaped text PrintNode::Print(string) writes between the quotes. */
  function Escape(str: string): string {
    if str == [] then [] else EscapeChar(str[0]) + Escape(str[1..])
  }

  /** PrintNode::Print(string): the escaped text in double quotes. */
  function Quoted(str: string): string {
    "\"" + Escape(str) + "\""
  }

  /** Escaping works character by character, so it distributes over concatenation. */
  lemma {:induction false} EscapeAppend(a: string, b: string)
    ensures Escape(a + b) == Escape(a) + Escape(b)
    decreases |a|
  {
    if a != [] {
      assert (a + b)[0] == a[0] && (a + b)[1..] == a[1..] + b;
      EscapeAppend(a[1..], b);
      assert Escape(a + b) == EscapeChar(a[0]) + (Escape(a[1..]) + Escape(b));
    } else {
      assert a + b == b;
    }
  }

  /** PrintNode::Print(const string&): the loop appending each character's escape. */
  method PrintString(str: string) returns (out: string)
    ensures out == Quoted(str)
  {
    var escaped := [];
    for i := 0 to |str|
      invariant escaped == Escape(str[..i])
    {
      var c := str[i];
      var piece: string;
      match c {
        case '"' => piece := "\\\"";
        case '\\' => piece := "\\\\";
        case '\n' => piece := "\\n";
        case '\r' => piece := "\\r";
        case '\t' => piece := "\\t";
        case _ => piece := [c];
      }
      assert piece == EscapeChar(c);
      assert Escape([c]) == piece by { assert [c][1..] == []; }
      assert str[..i + 1] == str[..i] + [c];
      EscapeAppend(str[..i], [c]);
      assert Escape(str[..i + 1]) == escaped + piece;
      escaped := escaped + piece;
    }
    assert str[..|str|] == str;
    out := "\"" + escaped + "\"";
  }

  /** The text t occurs in s at pos. */
  predicate TextAt(s: string, pos: nat, t: string) {
    pos + |t| <= |s| && s[pos..pos + |t|] == t
  }

  lemma TextAtSplit(s: string, pos: nat, x: string, y: string)
    requires TextAt(s, pos, x + y)
    ensures TextAt(s, pos, x) && TextAt(s, pos + |x|, y)
  {
    assert s[pos..pos + |x|] == s[pos..pos + |x| + |y|][..|x|];
    assert s[pos + |x|..pos + |x| + |y|] == s[pos..pos + |x| + |y|][|x|..];
  }

  /** One character's escape at pos loads back that character. */
  lemma ParseStringStep(s: string, pos: nat, line: string, c: char)
    requires TextAt(s, pos, EscapeChar(c))
    ensures ParseString(s, pos, line) == ParseString(s, pos + |EscapeChar(c)|, line + [c])
  {
    var e := EscapeChar(c);
    assert s[pos] == e[0];
    if |e| == 2 {
      assert s[pos + 1] == e[1];
      EscapeDecodes(c);
    }
  }

  /** Loading after `pos` an escaped text and a quote gives back the unescaped text. */
  lemma {:induction false} EscapeLoadsBack(s: string, pos: nat, line: string, str: string)
    requires TextAt(s, pos, Escape(str) + "\"")
    ensures ParseString(s, pos, line) == Ok((String(line + str), pos + |Escape(str)| + 1))
    decreases |str|
  {
    if str == [] {
      QuoteEnds(s, pos, line);
    } else {
      EscapeStep(s, pos, line, str);
      EscapeLoadsBack(s, pos + |EscapeChar(str[0])|, line + [str[0]], str[1..]);
      FirstThenRest(line, str);
      EscapeLength(str);
    }
  }

  /** The closing quote ends the string. */
  lemma QuoteEnds(s: string, pos: nat, line: string)
    requires TextAt(s, pos, Escape([]) + "\"")
    ensures ParseString(s, pos, line) == Ok((String(line + []), pos + |Escape([])| + 1))
  {
    assert Escape([]) + "\"" == "\"";
    assert s[pos..pos + 1][0] == s[pos];
    assert line + [] == line;
  }

  /** The escape of the first character loads that character, and the rest of the text follows it. */
  lemma EscapeStep(s: string, pos: nat, line: string, str: string)
    requires str != [] && TextAt(s, pos, Escape(str) + "\"")
    ensures TextAt(s, pos + |EscapeChar(str[0])|, Escape(str[1..]) + "\"")
    ensures ParseString(s, pos, line) == ParseString(s, pos + |EscapeChar(str[0])|, line + [str[0]])
  {
    var e := EscapeChar(str[0]);
    var rest := Escape(str[1..]);
    assert Escape(str) + "\"" == e + (rest + "\"");
    TextAtSplit(s, pos, e, rest + "\"");
    ParseStringStep(s, pos, line, str[0]);
  }

  lemma FirstThenRest(line: string, str: string)
    requires str != []
    ensures line + str == (line + [str[0]]) + str[1..]
  {
    assert str == [str[0]] + str[1..];
  }

  lemma EscapeLength(str: string)
    requires str != []
    ensures |Escape(str)| == |EscapeChar(str[0])| + |Escape(str[1..])|
  {
  }

  /** ReadEscapeSequence undoes the escape of each special character. */
  lemma EscapeDecodes(c: char)
    requires |EscapeChar(c)| == 2
    ensures ReadEscapeSequence(EscapeChar(c)[1]) == Ok(c)
  {
  }

  // ---------------------------------------------------------------------
  // Literals

  /** The characters that may follow null, true and false (end of input also may). */
  predicate Terminated(s: string, pos: nat)
    requires pos <= |s|
  {
    pos == |s| || s[pos] in {' ', ',', '}', ']', ':', '\n', '\t'}
  }

  /** LoadNull / LoadBool: `word` spelt out from pos and then a terminator gives `value`. */
  function ParseLiteral(s: string, pos: nat, word: string, value: Node): (r: Loaded)
    requires pos <= |s|
    ensures r.Ok? <==> pos + |word| <= |s| && s[pos..pos + |word|] == word && Terminated(s, pos + |word|)
    ensures r.Ok? ==> r.value == (value, pos + |word|)
    ensures r.Err? ==> r.error == ParsingError
  {
    if pos + |word| <= |s| && s[pos..pos + |word|] == word && Terminated(s, pos + |word|) then
      Ok((value, pos + |word|))
    else Err(ParsingError)
  }

  /** LoadBool: "true" when the next character is 't', "false" otherwise. */
  function ParseBool(s: string, pos: nat): Loaded
    requires pos <= |s|
  {
    if pos < |s| && s[pos] == 't' then ParseLiteral(s, pos, "true", Bool(true))
    else ParseLiteral(s, pos, "false", Bool(false))
  }

  // ---------------------------------------------------------------------
  // Numbers

  /** The cursors of a number's parts: the integer digits from intStart, the fraction from fracStart, the exponent from expStart. */
  datatype NumberParts = NumberParts(intStart: nat, fracStart: nat, expStart: nat, end: nat)

  predicate AllDigits(s: string, a: nat, b: nat)
    requires a <= b <= |s|
  {
    forall k :: a <= k < b ==> IsDigit(s[k])
  }

  /** int = zero / ( digit1-9 *DIGIT ), section 6 of RFC 8259 */
  predicate IntegerAt(s: string, a: nat, b: nat)
    requires a <= b <= |s|
  {
    a < b && AllDigits(s, a, b) && (s[a] == '0' ==> b == a + 1)
  }

  /** frac = decimal-point 1*DIGIT */
  predicate FractionAt(s: string, a: nat, b: nat)
    requires a <= b <= |s|
  {
    a + 1 < b && s[a] == '.' && AllDigits(s, a + 1, b)
  }

  /** Where the digits of an exponent starting at a begin: after e/E and an optional sign. */
  function ExponentDigits(s: string, a: nat): nat
    requires a < |s|
  {
    if a + 1 < |s| && (s[a + 1] == '+' || s[a + 1] == '-') then a + 2 else a + 1
  }

  /** exp = e [ minus / plus ] 1*DIGIT */
  predicate ExponentAt(s: string, a: nat, b: nat)
    requires a <= b <= |s|
  {
    a < b && (s[a] == 'e' || s[a] == 'E') && ExponentDigits(s, a) < b && AllDigits(s, ExponentDigits(s, a), b)
  }

  /** number = [ minus ] int [ frac ] [ exp ], with the parts at the cursors of p. */
  predicate NumberAt(s: string, pos: nat, p: NumberParts)
  {
    pos <= p.intStart <= p.fracStart <= p.expStart <= p.end <= |s|
    && (p.intStart == pos || (p.intStart == pos + 1 && s[pos] == '-'))
    && IntegerAt(s, p.intStart, p.fracStart)
    && (p.fracStart == p.expStart || FractionAt(s, p.fracStart, p.expStart))
    && (p.expStart == p.end || ExponentAt(s, p.expStart, p.end))
  }

  /** read_digits: at least one digit, then all the digits that follow. */
  function ReadDigits(s: string, i: nat): (r: Result<nat, Exception>)
    requires i <= |s|
    ensures r.Ok? ==> i < r.value <= |s| && AllDigits(s, i, r.value)
    ensures r.Ok? ==> r.value == |s| || !IsDigit(s[r.value])
    ensures r.Err? <==> i == |s| || !IsDigit(s[i])
    ensures r.Err? ==> r.error == ParsingError
  {
    if i < |s| && IsDigit(s[i]) then Ok(DigitsEnd(s, i)) else Err(ParsingError)
  }

  /** '0' alone, or read_digits. */
  function ScanInteger(s: string, a: nat): (r: Result<nat, Exception>)
    requires a <= |s|
    ensures r.Ok? ==> a < r.value <= |s| && IntegerAt(s, a, r.value)
    ensures r.Err? ==> r.error == ParsingError
  {
    if a < |s| && s[a] == '0' then Ok(a + 1) else ReadDigits(s, a)
  }

  /** '.' and read_digits, when the next character is '.'. */
  function ScanFraction(s: string, a: nat): (r: Result<nat, Exception>)
    requires a <= |s|
    ensures r.Ok? ==> a <= r.value <= |s| && (r.value == a || FractionAt(s, a, r.value))
    ensures r.Err? ==> r.error == ParsingError
  {
    if a < |s| && s[a] == '.' then ReadDigits(s, a + 1) else Ok(a)
  }

  /** e or E, an optional sign and read_digits, when the next character is e or E. */
  function ScanExponent(s: string, a: nat): (r: Result<nat, Exception>)
    requires a <= |s|
    ensures r.Ok? ==> a <= r.value <= |s| && (r.value == a || ExponentAt(s, a, r.value))
    ensures r.Err? ==> r.error == ParsingError
  {
    if a < |s| && (s[a] == 'e' || s[a] == 'E') then ReadDigits(s, ExponentDigits(s, a)) else Ok(a)
  }

  /** The characters LoadNum consumes: an optional '-', the integer, the fraction, the exponent. */
  function ScanNumber(s: string, pos: nat): (r: Result<NumberParts, Exception>)
    requires pos <= |s|
    ensures r.Ok? ==> NumberAt(s, pos, r.value)
    ensures r.Err? ==> r.error == ParsingError
  {
    var intStart := if pos < |s| && s[pos] == '-' then pos + 1 else pos;
    var fracStart := ScanInteger(s, intStart);
    if fracStart.Err? then Err(fracStart.error)
    else
      var expStart := ScanFraction(s, fracStart.value);
      if expStart.Err? then Err(expStart.error)
      else
        var end := ScanExponent(s, expStart.value);
        if end.Err? then Err(end.error)
        else Ok(NumberParts(intStart, fracStart.value, expStart.value, end.value))
  }

  function Pow10(n: nat): (r: nat)
    ensures r > 0
  {
    if n == 0 then 1 else 10 * Pow10(n - 1)
  }

  /** The exact value of the number text at p (std::stod without rounding). */
  function NumberValue(s: string, pos: nat, p: NumberParts): real
    requires NumberAt(s, pos, p)
  {
    var fraction := if p.fracStart < p.expStart then s[p.fracStart + 1..p.expStart] else [];
    var mantissa: int := DigitsValue(s[p.intStart..p.fracStart] + fraction);
    var signed: int := if p.intStart > pos then -mantissa else mantissa;
    var magnitude: int := if p.expStart < p.end then DigitsValue(s[ExponentDigits(s, p.expStart)..p.end]) else 0;
    var exponent: int := (if p.expStart < p.end && s[p.expStart + 1] == '-' then -magnitude else magnitude) - |fraction|;
    if exponent >= 0 then (signed * Pow10(exponent)) as real
    else signed as real / Pow10(-exponent) as real
  }

  /**
   * LoadNum: an int when there is neither fraction nor exponent and std::stoi
   * accepts the text; otherwise (or on int overflow) the value std::stod gives.
   */
  function ParseNum(s: string, pos: nat): (r: Loaded)
    requires pos <= |s|
    ensures r.Ok? ==> pos < r.value.1 <= |s|
    ensures r.Err? ==> r.error == ParsingError
  {
    match ScanNumber(s, pos)
    case Err(e) => Err(e)
    case Ok(p) =>
      var isInt := p.fracStart == p.end;
      var asInt := StoI(s[pos..p.end]);
      if isInt && asInt.Ok? then Ok((Int(asInt.value), p.end))
      else Ok((Double(NumberValue(s, pos, p)), p.end))
  }

  // ---------------------------------------------------------------------
  // Nodes, arrays and dictionaries

  /** LoadNode: skip white space, then dispatch on the first character. */
  function ParseNode(s: string, pos: nat): (r: Loaded)
    requires pos <= |s|
    ensures r.Ok? ==> pos < r.value.1 <= |s|
    decreases |s| - pos, 0
  {
    var p := SkipSpace(s, pos);
    if p == |s| then Err(ParsingError)
    else if s[p] == '[' then ParseArray(s, p + 1, [], false)
    else if s[p] == '{' then ParseDict(s, p + 1, map[], false)
    else ParseScalar(s, p)
  }

  /** The cases of LoadNode that hold no other node: literals, strings and numbers. */
  function ParseScalar(s: string, p: nat): (r: Loaded)
    requires p < |s|
    ensures r.Ok? ==> p < r.value.1 <= |s|
  {
    match s[p]
    case 't' => ParseBool(s, p)
    case 'f' => ParseBool(s, p)
    case 'n' => ParseLiteral(s, p, "null", Null)
    case '"' => ParseString(s, p + 1, [])
    case c => if c == '-' || IsDigit(c) then ParseNum(s, p) else Err(ParsingError)
  }

  /**
   * LoadArray after the '[' with `items` read so far: white space, then ']'
   * or (after the first item) a ',' and the next item.
   */
  function ParseArray(s: string, pos: nat, items: seq<Node>, waitComma: bool): (r: Loaded)
    requires pos <= |s|
    ensures r.Ok? ==> pos < r.value.1 <= |s|
    decreases |s| - pos, 2
  {
    var p := SkipSpace(s, pos);
    if p == |s| then Err(ParsingError)
    else if s[p] == ']' then Ok((Array(items), p + 1))
    else if waitComma && s[p] != ',' then Err(ParsingError)
    else
      var item := ParseNode(s, if waitComma then p + 1 else p);
      if item.Err? then Err(item.error)
      else ParseArray(s, item.value.1, items + [item.value.0], true)
  }

  /**
   * One entry of LoadDict from q: a key, which is any node that turns out to
   * be a string (AsString throws logic_error otherwise), then ':' after white
   * space, then the value.
   */
  function ParseEntry(s: string, q: nat): (r: Result<(string, Node, nat), Exception>)
    requires q <= |s|
    ensures r.Ok? ==> q < r.value.2 <= |s|
    decreases |s| - q, 1
  {
    match ParseNode(s, q)
    case Err(e) => Err(e)
    case Ok((key, afterKey)) =>
      if !key.String? then Err(LogicError)
      else
        var colon := SkipSpace(s, afterKey);
        if colon == |s| || s[colon] != ':' then Err(ParsingError)
        else
          match ParseNode(s, colon + 1)
          case Err(e) => Err(e)
          case Ok((value, next)) => Ok((key.stringValue, value, next))
  }

  /**
   * LoadDict after the '{' with `entries` read so far: white space, then '}'
   * or (after the first entry) a ',' and the next entry. A key already
   * present keeps its first value (std::map::emplace inserts nothing then).
   */
  function ParseDict(s: string, pos: nat, entries: map<string, Node>, waitComma: bool): (r: Loaded)
    requires pos <= |s|
    ensures r.Ok? ==> pos < r.value.1 <= |s|
    decreases |s| - pos, 2
  {
    var p := SkipSpace(s, pos);
    if p == |s| then Err(ParsingError)
    else if s[p] == '}' then Ok((Dict(entries), p + 1))
    else if waitComma && s[p] != ',' then Err(ParsingError)
    else
      match ParseEntry(s, if waitComma then p + 1 else p)
      case Err(e) => Err(e)
      case Ok((key, value, next)) =>
        ParseDict(s, next, if key in entries then entries else entries[key := value], true)
  }

  /** json::Load: the node at the start of the text; what follows it is not read. */
  function Load(s: string): (r: Result<Node, Exception>)
  {
    match ParseNode(s, 0)
    case Err(e) => Err(e)
    case Ok((node, _)) => Ok(node)
  }

  // ---------------------------------------------------------------------
  // The loaders, as loops over the cursor

  /** input >> ws */
  method SkipWs(s: string, pos: nat) returns (p: nat)
    requires pos <= |s|
    ensures p == SkipSpace(s, pos)
  {
    p := pos;
    while p < |s| && IsSpace(s[p])
      invariant pos <= p <= |s| && SkipSpace(s, p) == SkipSpace(s, pos)
    {
      p := p + 1;
    }
  }

  /** LoadString: the loop after the opening quote. */
  method LoadString(s: string, pos: nat) returns (r: Loaded)
    requires pos <= |s|
    ensures r == ParseString(s, pos, [])
  {
    var line: string := [];
    var i := pos;
    while i < |s|
      invariant pos <= i <= |s|
      invariant ParseString(s, i, line) == ParseString(s, pos, [])
      decreases |s| - i
    {
      var c := s[i];
      if c == '\\' {
        if i + 1 == |s| {
          return Err(ParsingError);
        }
        var escaped := ReadEscapeSequence(s[i + 1]);
        if escaped.Err? {
          return Err(escaped.error);
        }
        line := line + [escaped.value];
        i := i + 2;
      } else if c == '"' {
        return Ok((String(line), i + 1));
      } else {
        line := line + [c];
        i := i + 1;
      }
    }
    return Err(ParsingError);
  }

  /** The loop of LoadNull and LoadBool: each character of `word` in turn, then a terminator. */
  method LoadLiteral(s: string, pos: nat, word: string, value: Node) returns (r: Loaded)
    requires pos <= |s|
    ensures r == ParseLiteral(s, pos, word, value)
  {
    for i := 0 to |word|
      invariant pos + i <= |s| && s[pos..pos + i] == word[..i]
    {
      if pos + i == |s| || s[pos + i] != word[i] {
        return Err(ParsingError);
      }
      assert s[pos..pos + i + 1] == s[pos..pos + i] + [s[pos + i]];
      assert word[..i + 1] == word[..i] + [word[i]];
    }
    assert word[..|word|] == word;
    var next := pos + |word|;
    if next == |s| || s[next] in {' ', ',', '}', ']', ':', '\n', '\t'} {
      return Ok((value, next));
    }
    return Err(ParsingError);
  }

  method LoadNull(s: string, pos: nat) returns (r: Loaded)
    requires pos <= |s|
    ensures r == ParseLiteral(s, pos, "null", Null)
  {
    r := LoadLiteral(s, pos, "null", Null);
  }

  method LoadBool(s: string, pos: nat) returns (r: Loaded)
    requires pos <= |s|
    ensures r == ParseBool(s, pos)
  {
    if pos < |s| && s[pos] == 't' {
      r := LoadLiteral(s, pos, "true", Bool(true));
    } else {
      r := LoadLiteral(s, pos, "false", Bool(false));
    }
  }

  /** read_digits: a digit is required, then the loop of read_char while the next is a digit. */
  method LoadDigits(s: string, i: nat) returns (r: Result<nat, Exception>)
    requires i <= |s|
    ensures r == ReadDigits(s, i)
  {
    if !(i < |s| && IsDigit(s[i])) {
      return Err(ParsingError);
    }
    var j := i;
    while j < |s| && IsDigit(s[j])
      invariant i <= j <= |s| && DigitsEnd(s, j) == DigitsEnd(s, i)
    {
      j := j + 1;
    }
    return Ok(j);
  }

  /** The reading half of LoadNum: the characters it appends to parsed_num, with the cursors of the parts. */
  method ReadNumber(s: string, pos: nat) returns (r: Result<NumberParts, Exception>)
    requires pos <= |s|
    ensures r == ScanNumber(s, pos)
  {
    var i := pos;
    if i < |s| && s[i] == '-' {
      i := i + 1;
    }
    var intStart := i;
    if i < |s| && s[i] == '0' {
      i := i + 1;
    } else {
      var digits := LoadDigits(s, i);
      if digits.Err? {
        return Err(digits.error);
      }
      i := digits.value;
    }
    var fracStart := i;
    assert ScanInteger(s, intStart) == Ok(fracStart);
    if i < |s| && s[i] == '.' {
      var digits := LoadDigits(s, i + 1);
      if digits.Err? {
        return Err(digits.error);
      }
      i := digits.value;
    }
    var expStart := i;
    assert ScanFraction(s, fracStart) == Ok(expStart);
    if i < |s| && (s[i] == 'e' || s[i] == 'E') {
      var digits := LoadDigits(s, ExponentDigits(s, i));
      if digits.Err? {
        return Err(digits.error);
      }
      i := digits.value;
    }
    assert ScanExponent(s, expStart) == Ok(i);
    return Ok(NumberParts(intStart, fracStart, expStart, i));
  }

  /** LoadNum: read the number, then std::stoi when it has no fraction and no exponent, std::stod otherwise. */
  method LoadNum(s: string, pos: nat) returns (r: Loaded)
    requires pos <= |s|
    ensures r == ParseNum(s, pos)
  {
    var parts := ReadNumber(s, pos);
    if parts.Err? {
      return Err(parts.error);
    }
    var end := parts.value.end;
    var isInt := parts.value.fracStart == end;
    if isInt {
      var asInt := StoI(s[pos..end]);
      if asInt.Ok? {
        return Ok((Int(asInt.value), end));
      }
    }
    return Ok((Double(NumberValue(s, pos, parts.value)), end));
  }

  /** LoadNode */
  method LoadNode(s: string, pos: nat) returns (r: Loaded)
    requires pos <= |s|
    ensures r == ParseNode(s, pos)
    decreases |s| - pos, 0
  {
    var p := SkipWs(s, pos);
    if p == |s| {
      return Err(ParsingError);
    }
    var c := s[p];
    if c == '[' {
      r := LoadArray(s, p + 1);
    } else if c == '{' {
      r := LoadDict(s, p + 1);
    } else if c == 't' || c == 'f' {
      r := LoadBool(s, p);
    } else if c == 'n' {
      r := LoadNull(s, p);
    } else if c == '"' {
      r := LoadString(s, p + 1);
    } else if c == '-' || IsDigit(c) {
      r := LoadNum(s, p);
    } else {
      r := Err(ParsingError);
    }
  }

  /** LoadArray: the loop after '[' with its wait_comma flag. */
  method LoadArray(s: string, pos: nat) returns (r: Loaded)
    requires pos <= |s|
    ensures r == ParseArray(s, pos, [], false)
    decreases |s| - pos, 2
  {
    var result: seq<Node> := [];
    var waitComma := false;
    var cur := pos;
    while true
      invariant pos <= cur <= |s|
      invariant ParseArray(s, cur, result, waitComma) == ParseArray(s, pos, [], false)
      decreases |s| - cur
    {
      var p := SkipWs(s, cur);
      if p == |s| {
        return Err(ParsingError);
      }
      if s[p] == ']' {
        return Ok((Array(result), p + 1));
      }
      if waitComma {
        if s[p] != ',' {
          return Err(ParsingError);
        }
        p := p + 1;
      }
      var item := LoadNode(s, p);
      if item.Err? {
        return Err(item.error);
      }
      result := result + [item.value.0];
      waitComma := true;
      cur := item.value.1;
    }
  }

  /** LoadDict: the loop after '{' with its wait_comma flag. */
  method LoadDict(s: string, pos: nat) returns (r: Loaded)
    requires pos <= |s|
    ensures r == ParseDict(s, pos, map[], false)
    decreases |s| - pos, 2
  {
    var result: map<string, Node> := map[];
    var waitComma := false;
    var cur := pos;
    while true
      invariant pos <= cur <= |s|
      invariant ParseDict(s, cur, result, waitComma) == ParseDict(s, pos, map[], false)
      decreases |s| - cur
    {
      var p := SkipWs(s, cur);
      if p == |s| {
        return Err(ParsingError);
      }
      if s[p] == '}' {
        return Ok((Dict(result), p + 1));
      }
      if waitComma {
        if s[p] != ',' {
          return Err(ParsingError);
        }
        p := p + 1;
      }
      var entry := LoadEntry(s, p);
      DictEntryStep(s, cur, result, waitComma);
      if entry.Err? {
        return Err(entry.error);
      }
      var (name, value, next) := entry.value;
      if name !in result {
        result := result[name := value];
      }
      waitComma := true;
      cur := next;
    }
  }

  /** One entry of the loop of LoadDict: the key, which must be a string, ':' and the value. */
  method LoadEntry(s: string, q: nat) returns (r: Result<(string, Node, nat), Exception>)
    requires q <= |s|
    ensures r == ParseEntry(s, q)
    decreases |s| - q, 1
  {
    var key := LoadNode(s, q);
    if key.Err? {
      return Err(key.error);
    }
    var name := AsString(key.value.0);
    if name.Err? {
      return Err(name.error);
    }
    var colon := SkipWs(s, key.value.1);
    if colon == |s| || s[colon] != ':' {
      return Err(ParsingError);
    }
    var value := LoadNode(s, colon + 1);
    if value.Err? {
      return Err(value.error);
    }
    r := Ok((name.value, value.value.0, value.value.1));
  }

  /** After an entry that loads, LoadDict goes on behind it with the key added unless it was there. */
  lemma DictEntryStep(s: string, pos: nat, entries: map<string, Node>, waitComma: bool)
    requires pos <= |s|
    requires var p := SkipSpace(s, pos); p < |s| && s[p] != '}' && !(waitComma && s[p] != ',')
    ensures var p := SkipSpace(s, pos);
      var entry := ParseEntry(s, if waitComma then p + 1 else p);
      var (key, value, next) := if entry.Ok? then entry.value else ([], Null, pos);
      var after := if key in entries then entries else entries[key := value];
      && (entry.Ok? ==> ParseDict(s, pos, entries, waitComma) == ParseDict(s, next, after, true))
      && (entry.Err? ==> ParseDict(s, pos, entries, waitComma) == Err(entry.error))
  {
  }

  // ---------------------------------------------------------------------
  // What the loader promises

  /** A printed string, followed by anything, loads back as the same string. */
  lemma StringRoundTrip(str: string, rest: string)
    ensures ParseNode(Quoted(str) + rest, 0) == Ok((String(str), |Quoted(str)|))
    ensures Load(Quoted(str) + rest) == Ok(String(str))
  {
    var s := Quoted(str) + rest;
    var e := Escape(str);
    assert s == "\"" + (e + "\"") + rest;
    assert s[0] == '"' && SkipSpace(s, 0) == 0;
    assert s[1..1 + |e + "\""|] == e + "\"";
    EscapeLoadsBack(s, 1, [], str);
    assert [] + str == str;
  }

  /** A loaded array ends with the ']' that closes it. */
  lemma {:induction false} ArrayClosed(s: string, pos: nat, items: seq<Node>, waitComma: bool)
    requires pos <= |s|
    ensures var r := ParseArray(s, pos, items, waitComma);
            r.Ok? ==> r.value.0.Array? && s[r.value.1 - 1] == ']'
    decreases |s| - pos, 1
  {
    var p := SkipSpace(s, pos);
    if p < |s| && s[p] != ']' && !(waitComma && s[p] != ',') {
      ArrayItemClosed(s, pos, items, waitComma, p, if waitComma then p + 1 else p);
    } else if p < |s| && s[p] == ']' {
      assert ParseArray(s, pos, items, waitComma) == Ok((Array(items), p + 1));
    }
  }

  /** ... when the next thing in it is an item, which starts at q. */
  lemma {:induction false} ArrayItemClosed(s: string, pos: nat, items: seq<Node>, waitComma: bool, p: nat, q: nat)
    requires pos <= |s| && p == SkipSpace(s, pos) && q == (if waitComma then p + 1 else p)
    requires p < |s| && s[p] != ']' && !(waitComma && s[p] != ',')
    ensures var r := ParseArray(s, pos, items, waitComma);
            r.Ok? ==> r.value.0.Array? && s[r.value.1 - 1] == ']'
    decreases |s| - pos, 0
  {
    ArrayItemStep(s, pos, items, waitComma, p, q);
    var item := ParseNode(s, q);
    if item.Ok? {
      ArrayClosed(s, item.value.1, items + [item.value.0], true);
    }
  }

  /** An item of an array: loading goes on after it, or throws what loading the item threw. */
  lemma ArrayItemStep(s: string, pos: nat, items: seq<Node>, waitComma: bool, p: nat, q: nat)
    requires pos <= |s| && p == SkipSpace(s, pos) && q == (if waitComma then p + 1 else p)
    requires p < |s| && s[p] != ']' && !(waitComma && s[p] != ',')
    ensures var item := ParseNode(s, q);
      && (item.Ok? ==> ParseArray(s, pos, items, waitComma) == ParseArray(s, item.value.1, items + [item.value.0], true))
      && (item.Err? ==> ParseArray(s, pos, items, waitComma) == Err(item.error))
  {
  }

  /** With no ']' left in the input the array is unclosed, and loading it throws. */
  lemma UnclosedArrayThrows(s: string, pos: nat, items: seq<Node>, waitComma: bool)
    requires pos <= |s|
    requires forall k :: pos <= k < |s| ==> s[k] != ']'
    ensures ParseArray(s, pos, items, waitComma).Err?
  {
    ArrayClosed(s, pos, items, waitComma);
  }

  /** A loaded dictionary ends with the '}' that closes it. */
  lemma {:induction false} DictClosed(s: string, pos: nat, entries: map<string, Node>, waitComma: bool)
    requires pos <= |s|
    ensures var r := ParseDict(s, pos, entries, waitComma);
            r.Ok? ==> r.value.0.Dict? && s[r.value.1 - 1] == '}'
    decreases |s| - pos
  {
    var p := SkipSpace(s, pos);
    if p < |s| && s[p] != '}' && !(waitComma && s[p] != ',') {
      var entry := ParseEntry(s, if waitComma then p + 1 else p);
      if entry.Ok? {
        var (k, value, next) := entry.value;
        DictClosed(s, next, if k in entries then entries else entries[k := value], true);
      }
    }
  }

  /** With no '}' left in the input the dictionary is unclosed, and loading it throws. */
  lemma UnclosedDictThrows(s: string, pos: nat, entries: map<string, Node>, waitComma: bool)
    requires pos <= |s|
    requires forall k :: pos <= k < |s| ==> s[k] != '}'
    ensures ParseDict(s, pos, entries, waitComma).Err?
  {
    DictClosed(s, pos, entries, waitComma);
  }

  /** Once a key is read its value never changes: for a repeated key the first value is kept. */
  lemma {:induction false} DictKeepsFirst(s: string, pos: nat, entries: map<string, Node>, waitComma: bool)
    requires pos <= |s|
    ensures var r := ParseDict(s, pos, entries, waitComma);
            r.Ok? ==> r.value.0.Dict? && forall k :: k in entries ==> k in r.value.0.entries && r.value.0.entries[k] == entries[k]
    decreases |s| - pos
  {
    var p := SkipSpace(s, pos);
    if p < |s| && s[p] != '}' && !(waitComma && s[p] != ',') {
      var entry := ParseEntry(s, if waitComma then p + 1 else p);
      if entry.Ok? {
        var (k, value, next) := entry.value;
        DictKeepsFirst(s, next, if k in entries then entries else entries[k := value], true);
      }
    }
  }

  /** After an item, anything but white space followed by ',' or ']' is rejected. */
  lemma ArrayNeedsComma(s: string, pos: nat, items: seq<Node>)
    requires pos <= |s|
    requires SkipSpace(s, pos) < |s| && s[SkipSpace(s, pos)] !in {',', ']'}
    ensures ParseArray(s, pos, items, true) == Err(ParsingError)
  {
  }

  /** No fraction point and no exponent mark between a and b. */
  predicate PlainInteger(s: string, a: nat, b: nat)
    requires a <= b <= |s|
  {
    forall k :: a <= k < b ==> s[k] != '.' && s[k] != 'e' && s[k] != 'E'
  }

  /**
   * A loaded number is an int exactly when its text has neither fraction nor
   * exponent and std::stoi accepts it (fits in int); it is a double otherwise.
   */
  lemma NumberKind(s: string, pos: nat)
    requires pos <= |s|
    ensures var r := ParseNum(s, pos);
            r.Ok? ==> (r.value.0.Int? || r.value.0.Double?)
                      && (r.value.0.Int? <==> PlainInteger(s, pos, r.value.1) && StoI(s[pos..r.value.1]).Ok?)
                      && (r.value.0.Int? ==> StoI(s[pos..r.value.1]) == Ok(r.value.0.intValue))
  {
    var scan := ScanNumber(s, pos);
    if scan.Ok? {
      var p := scan.value;
      assert PlainInteger(s, pos, p.fracStart) by {
        forall k | pos <= k < p.fracStart ensures s[k] != '.' && s[k] != 'e' && s[k] != 'E' {
          if k >= p.intStart {
            assert IsDigit(s[k]);
          }
        }
      }
      if p.fracStart < p.expStart {
        assert s[p.fracStart] == '.';
      } else if p.expStart < p.end {
        assert s[p.expStart] == 'e' || s[p.expStart] == 'E';
      }
    }
  }

  /** A run of digits from i that ends at n (the end or a non-digit) is what DigitsEnd finds. */
  lemma {:induction false} DigitsEndIs(s: string, i: nat, n: nat)
    requires i <= n <= |s| && AllDigits(s, i, n) && (n == |s| || !IsDigit(s[n]))
    ensures DigitsEnd(s, i) == n
    decreases n - i
  {
    if i < n {
      DigitsEndIs(s, i + 1, n);
    }
  }

  /** Only zero is written with a leading '0'. */
  lemma {:induction false} DecimalTextLeadingZero(n: nat)
    ensures DecimalText(n)[0] == '0' <==> n == 0
  {
    if n >= 10 {
      DecimalTextLeadingZero(n / 10);
      assert DecimalText(n)[0] == DecimalText(n / 10)[0];
    }
  }

  /** What PrintNode writes for an int (operator<< on int). */
  function IntText(v: int): (r: string)
    ensures r != []
  {
    if v < 0 then "-" + DecimalText(-v) else DecimalText(v)
  }

  /** The text of an int: an optional '-' and then the digits of its magnitude. */
  lemma IntTextShape(v: int)
    ensures var a := if v < 0 then 1 else 0;
            var t := IntText(v);
            a < |t| && (v < 0 ==> t[0] == '-') && AllDigits(t, a, |t|)
            && t[a..] == DecimalText(if v < 0 then -v else v)
            && (t[a] == '0' <==> v == 0)
  {
    var magnitude: nat := if v < 0 then -v else v;
    DecimalTextLeadingZero(magnitude);
  }

  /** std::stoi reads back the text of any int. */
  lemma StoIOfIntText(v: int)
    requires IntMin <= v <= IntMax
    ensures StoI(IntText(v)) == Ok(v)
  {
    var t := IntText(v);
    var a := if v < 0 then 1 else 0;
    var magnitude: nat := if v < 0 then -v else v;
    IntTextShape(v);
    assert SkipSpace(t, 0) == 0 by {
      assert !IsSpace(t[0]) by {
        if v >= 0 { assert IsDigit(t[0]); }
      }
    }
    assert DigitsEnd(t, a) == |t| by {
      DigitsEndIs(t, a, |t|);
    }
    assert DigitsValue(t[a..|t|]) == magnitude by {
      assert t[a..|t|] == t[a..];
      DecimalTextValue(magnitude);
    }
  }

  /** A printed int loads back as that int, whatever follows it that cannot continue a number. */
  lemma IntRoundTrip(v: int, rest: string)
    requires IntMin <= v <= IntMax
    requires rest == [] || !(IsDigit(rest[0]) || rest[0] == '.' || rest[0] == 'e' || rest[0] == 'E')
    ensures ParseNode(IntText(v) + rest, 0) == Ok((Int(v), |IntText(v)|))
  {
    var t := IntText(v);
    var s := t + rest;
    var a := if v < 0 then 1 else 0;
    var end := |t|;
    IntTextShape(v);
    assert s[..end] == t;
    assert end < |s| ==> s[end] == rest[0];
    assert AllDigits(s, a, end) by {
      assert forall k :: a <= k < end ==> s[k] == t[k];
    }
    assert s[0] == '-' || IsDigit(s[0]) by {
      assert s[0] == t[0];
      if v >= 0 { assert IsDigit(t[0]); }
    }
    assert ParseNode(s, 0) == ParseNum(s, 0) by {
      assert SkipSpace(s, 0) == 0;
    }
    assert ScanInteger(s, a) == Ok(end) by {
      if s[a] != '0' {
        DigitsEndIs(s, a, end);
      } else {
        assert t[a] == '0';
      }
    }
    assert ScanNumber(s, 0) == Ok(NumberParts(a, end, end, end));
    StoIOfIntText(v);
    assert s[0..end] == t;
  }

  /** What PrintNode writes for null and the two booleans. */
  function LiteralText(n: Node): string
    requires n.Null? || n.Bool?
  {
    if n.Null? then "null" else if n.boolValue then "true" else "false"
  }

  /** A printed literal loads back exactly when what follows it is a terminator (or nothing). */
  lemma {:induction false} LiteralRoundTrip(n: Node, rest: string)
    requires n.Null? || n.Bool?
    ensures var text := LiteralText(n);
            ParseNode(text + rest, 0) ==
              if rest == [] || rest[0] in {' ', ',', '}', ']', ':', '\n', '\t'} then Ok((n, |text|))
              else Err(ParsingError)
  {
    var text := LiteralText(n);
    var s := text + rest;
    assert s[..|text|] == text;
    assert SkipSpace(s, 0) == 0;
    assert s[0..|text|] == text;
    assert |text| < |s| ==> s[|text|] == rest[0];
  }

  // ---------------------------------------------------------------------
  // Node accessors (As* throw logic_error on another alternative)

  function AsInt(n: Node): (r: Result<int, Exception>)
    ensures r.Ok? <==> n.Int?
    ensures r.Ok? ==> n == Int(r.value)
    ensures r.Err? ==> r.error == LogicError
  {
    if n.Int? then Ok(n.intValue) else Err(LogicError)
  }

  function AsBool(n: Node): (r: Result<bool, Exception>)
    ensures r.Ok? <==> n.Bool?
    ensures r.Ok? ==> n == Bool(r.value)
    ensures r.Err? ==> r.error == LogicError
  {
    if n.Bool? then Ok(n.boolValue) else Err(LogicError)
  }

  /** A stored double, or a stored int widened to double. */
  function AsDouble(n: Node): (r: Result<real, Exception>)
    ensures r.Ok? <==> n.Int? || n.Double?
    ensures n.Double? ==> r == Ok(n.doubleValue)
    ensures n.Int? ==> r == Ok(n.intValue as real)
    ensures r.Err? ==> r.error == LogicError
  {
    if IsPureDouble(n) then Ok(n.doubleValue)
    else if n.Int? then Ok(n.intValue as real)
    else Err(LogicError)
  }

  function AsString(n: Node): (r: Result<string, Exception>)
    ensures r.Ok? <==> n.String?
    ensures r.Ok? ==> n == String(r.value)
    ensures r.Err? ==> r.error == LogicError
  {
    if n.String? then Ok(n.stringValue) else Err(LogicError)
  }

  function AsArray(n: Node): (r: Result<seq<Node>, Exception>)
    ensures r.Ok? <==> n.Array?
    ensures r.Ok? ==> n == Array(r.value)
    ensures r.Err? ==> r.error == LogicError
  {
    if n.Array? then Ok(n.items) else Err(LogicError)
  }

  function AsMap(n: Node): (r: Result<map<string, Node>, Exception>)
    ensures r.Ok? <==> n.Dict?
    ensures r.Ok? ==> n == Dict(r.value)
    ensures r.Err? ==> r.error == LogicError
  {
    if n.Dict? then Ok(n.entries) else Err(LogicError)
  }

  predicate IsInt(n: Node) { n.Int? }
  predicate IsBool(n: Node) { n.Bool? }
  predicate IsPureDouble(n: Node) { n.Double? }
  /** True for an int as well as for a double. */
  predicate IsDouble(n: Node) { IsPureDouble(n) || IsInt(n) }
  predicate IsString(n: Node) { n.String? }
  predicate IsNull(n: Node) { n.Null? }
  predicate IsArray(n: Node) { n.Array? }
  predicate IsMap(n: Node) { n.Dict? }

  /** Each As* succeeds exactly when the matching Is* holds; AsDouble exactly when IsDouble does. */
  lemma AccessorsAgree(n: Node)
    ensures AsInt(n).Ok? <==> IsInt(n)
    ensures AsBool(n).Ok? <==> IsBool(n)
    ensures AsDouble(n).Ok? <==> IsDouble(n)
    ensures AsString(n).Ok? <==> IsString(n)
    ensures AsArray(n).Ok? <==> IsArray(n)
    ensures AsMap(n).Ok? <==> IsMap(n)
  {
  }
}
