/**
 * The text-command reader of transport-catalogue/input_reader.cpp.
 *
 * A line "Stop X: lat, lng, D1m to S1, ..." or "Bus B: A - B - C" (or
 * "A > B > A") is cut into a command, an id and a description; the reader
 * keeps the lines with a command and later applies them to the catalogue in
 * three passes: the coordinates of every stop, then the road distances, then
 * the buses.
 *
 * Positions returned by string_view::find and its relatives are Option<nat>,
 * None standing for npos. The catalogue the commands are applied to belongs to
 * another revision (it has SetRoadDistance), so applying commands yields the
 * sequence of catalogue calls made, and the exception that stopped it, if any.
 */
module InputReader {
  import opened Wrappers
  import opened Sequences
  import opened CLib

  // ---------------------------------------------------------------------
  // string_view searches

  /** find(c, from): a position at or after `from` holding c; FindIsFirst says it is the first. */
  function Find(s: string, c: char, from: nat): (r: Option<nat>)
    ensures r.Some? ==> from <= r.value < |s| && s[r.value] == c
    decreases |s| - from
  {
    if from >= |s| then None else if s[from] == c then Some(from) else Find(s, c, from + 1)
  }

  lemma {:induction false} FindIsFirst(s: string, c: char, from: nat)
    ensures Find(s, c, from).Some? ==> forall k :: from <= k < Find(s, c, from).value ==> s[k] != c
    ensures Find(s, c, from).None? ==> forall k :: from <= k < |s| ==> s[k] != c
    decreases |s| - from
  {
    if from < |s| && s[from] != c {
      FindIsFirst(s, c, from + 1);
    }
  }

  /** find_first_not_of(c, from) */
  function FindNot(s: string, c: char, from: nat): (r: Option<nat>)
    ensures r.Some? ==> from <= r.value < |s| && s[r.value] != c
    decreases |s| - from
  {
    if from >= |s| then None else if s[from] != c then Some(from) else FindNot(s, c, from + 1)
  }

  lemma {:induction false} FindNotIsFirst(s: string, c: char, from: nat)
    ensures FindNot(s, c, from).Some? ==> forall k :: from <= k < FindNot(s, c, from).value ==> s[k] == c
    ensures FindNot(s, c, from).None? ==> forall k :: from <= k < |s| ==> s[k] == c
    decreases |s| - from
  {
    if from < |s| && s[from] == c {
      FindNotIsFirst(s, c, from + 1);
    }
  }

  /** find_last_not_of(c) over s[..upTo] */
  function FindLastNot(s: string, c: char, upTo: nat): (r: Option<nat>)
    requires upTo <= |s|
    ensures r.Some? ==> r.value < upTo && s[r.value] != c
    decreases upTo
  {
    if upTo == 0 then None else if s[upTo - 1] != c then Some(upTo - 1) else FindLastNot(s, c, upTo - 1)
  }

  lemma {:induction false} FindLastNotIsLast(s: string, c: char, upTo: nat)
    requires upTo <= |s|
    ensures FindLastNot(s, c, upTo).Some? ==> forall k :: FindLastNot(s, c, upTo).value < k < upTo ==> s[k] == c
    ensures FindLastNot(s, c, upTo).None? ==> forall k :: 0 <= k < upTo ==> s[k] == c
    decreases upTo
  {
    if upTo > 0 && s[upTo - 1] == c {
      FindLastNotIsLast(s, c, upTo - 1);
    }
  }

  function Spaces(n: nat): string {
    seq(n, _ => ' ')
  }

  /** No space at either end. */
  predicate Trimmed(t: string) {
    t == [] || (t[0] != ' ' && t[|t| - 1] != ' ')
  }

  /** Every character of t is a space. */
  predicate AllSpaces(t: string) {
    forall k :: 0 <= k < |t| ==> t[k] == ' '
  }

  /** Searching s from n is searching s[n..] from its start. */
  lemma FindNotFrom(s: string, c: char, n: nat)
    requires n <= |s|
    ensures FindNot(s[n..], c, 0) == (match FindNot(s, c, n) case None => None case Some(i) => Some(i - n))
  {
    var t := s[n..];
    FindNotIsFirst(s, c, n);
    FindNotIsFirst(t, c, 0);
    assert forall k :: 0 <= k < |t| ==> t[k] == s[n + k];
  }

  /** find_first_not_of(c) passes over a run of c. */
  lemma FindNotSkips(s: string, c: char, n: nat, m: nat)
    requires n <= m && forall k :: n <= k < m && k < |s| ==> s[k] == c
    ensures FindNot(s, c, n) == FindNot(s, c, m)
  {
    FindNotIsFirst(s, c, n);
    FindNotIsFirst(s, c, m);
  }

  /** find(c) passes over a run without c. */
  lemma FindSkips(s: string, c: char, n: nat, m: nat)
    requires n <= m && forall k :: n <= k < m && k < |s| ==> s[k] != c
    ensures Find(s, c, n) == Find(s, c, m)
  {
    FindIsFirst(s, c, n);
    FindIsFirst(s, c, m);
  }

  // ---------------------------------------------------------------------
  // Trim, Split, ParseRoute

  /** Trim: the text between the first and the last non-space character, or empty when there is none. */
  function Trim(s: string): string {
    match FindNot(s, ' ', 0)
    case None => []
    case Some(start) =>
      FindLastNotReaches(s, ' ', |s|, start);
      var last := FindLastNot(s, ' ', |s|).value;
      s[start..last + 1]
  }

  /** find_last_not_of finds a character that is not c when there is one, at i or after it. */
  lemma {:induction false} FindLastNotReaches(s: string, c: char, upTo: nat, i: nat)
    requires i < upTo <= |s| && s[i] != c
    ensures FindLastNot(s, c, upTo).Some? && i <= FindLastNot(s, c, upTo).value
    decreases upTo
  {
    if s[upTo - 1] == c {
      FindLastNotReaches(s, c, upTo - 1, i);
    }
  }

  /** The result of Trim has no space at either end. */
  lemma TrimTrimmed(s: string)
    ensures Trimmed(Trim(s)) && |Trim(s)| <= |s|
  {
    if FindNot(s, ' ', 0).Some? {
      FindLastNotIsLast(s, ' ', |s|);
    }
  }

  /** Trim gives the empty view exactly for an empty or all-space input. */
  lemma TrimEmpty(s: string)
    ensures Trim(s) == [] <==> AllSpaces(s)
  {
    FindNotIsFirst(s, ' ', 0);
    if FindNot(s, ' ', 0).Some? {
      FindLastNotIsLast(s, ' ', |s|);
    }
  }

  /** The trimmed text is the one stretch of s that has only spaces around it. */
  lemma TrimIsInner(s: string)
    ensures exists a: nat :: a + |Trim(s)| <= |s| && s[a..a + |Trim(s)|] == Trim(s)
                             && AllSpaces(s[..a]) && AllSpaces(s[a + |Trim(s)|..])
  {
    FindNotIsFirst(s, ' ', 0);
    match FindNot(s, ' ', 0)
    case None =>
      assert 0 + |Trim(s)| <= |s| && s[0..0] == Trim(s) && AllSpaces(s[..0]) && s[0 + |Trim(s)|..] == s;
    case Some(start) =>
      FindLastNotIsLast(s, ' ', |s|);
      var last := FindLastNot(s, ' ', |s|).value;
      assert Trim(s) == s[start..last + 1];
      assert AllSpaces(s[..start]);
      assert AllSpaces(s[start + |Trim(s)|..]);
  }

  lemma SliceOfSlice(s: string, n: nat, a: nat, b: nat)
    requires n <= a <= b <= |s|
    ensures s[n..][a - n..b - n] == s[a..b]
  {
  }

  /** Trim of a text whose first and last non-space characters are at a and b. */
  lemma TrimBetween(s: string, a: nat, b: nat)
    requires a <= b < |s| && s[a] != ' ' && s[b] != ' '
    requires forall k :: 0 <= k < a ==> s[k] == ' '
    requires forall k :: b < k < |s| ==> s[k] == ' '
    ensures Trim(s) == s[a..b + 1]
  {
    FindNotIsFirst(s, ' ', 0);
    FindLastNotIsLast(s, ' ', |s|);
  }

  /** Where the first and the last non-space characters are. */
  lemma NonSpaceBounds(s: string)
    requires FindNot(s, ' ', 0).Some?
    ensures var a := FindNot(s, ' ', 0).value;
      && FindLastNot(s, ' ', |s|).Some?
      && var m := FindLastNot(s, ' ', |s|).value;
      && a <= m < |s| && s[a] != ' ' && s[m] != ' '
      && (forall k :: 0 <= k < a ==> s[k] == ' ')
      && (forall k :: m < k < |s| ==> s[k] == ' ')
  {
    FindNotIsFirst(s, ' ', 0);
    FindLastNotIsLast(s, ' ', |s|);
  }

  lemma TrimSkipsLeadingSpacesBetween(s: string, n: nat, a: nat, m: nat)
    requires n <= a <= m < |s| && s[a] != ' ' && s[m] != ' '
    requires forall k :: 0 <= k < a ==> s[k] == ' '
    requires forall k :: m < k < |s| ==> s[k] == ' '
    ensures Trim(s) == Trim(s[n..])
  {
    var t := s[n..];
    TrimBetween(s, a, m);
    assert forall k :: 0 <= k < |t| ==> t[k] == s[n + k];
    TrimBetween(t, a - n, m - n);
    SliceOfSlice(s, n, a, m + 1);
  }

  /** Trim does not look at spaces in front of the text. */
  lemma TrimSkipsLeadingSpaces(s: string, n: nat)
    requires n <= |s| && forall k :: 0 <= k < n ==> s[k] == ' '
    ensures Trim(s) == Trim(s[n..])
  {
    if FindNot(s, ' ', 0).None? {
      FindNotFrom(s, ' ', n);
      FindNotSkips(s, ' ', 0, n);
    } else {
      NonSpaceBounds(s);
      TrimSkipsLeadingSpacesBetween(s, n, FindNot(s, ' ', 0).value, FindLastNot(s, ' ', |s|).value);
    }
  }

  /** The position of the next delimiter at or after p, or the end of s when there is none. */
  function DelimEnd(s: string, delim: char, p: nat): (d: nat)
    requires p <= |s|
    ensures p <= d <= |s| && (d < |s| ==> s[d] == delim)
  {
    match Find(s, delim, p)
    case Some(d) => d
    case None => |s|
  }

  /** A token is kept when it is not empty. */
  function Kept(token: string): seq<string> {
    if token != [] then [token] else []
  }

  /** The tokens the loop of Split produces from position `pos` on. */
  function SplitFrom(s: string, delim: char, pos: nat): seq<string>
    decreases |s| + 1 - pos
  {
    match FindNot(s, ' ', pos)
    case None => []
    case Some(p) =>
      var d := DelimEnd(s, delim, p);
      Kept(Trim(s[p..d])) + SplitFrom(s, delim, d + 1)
  }

  /** Split: the trimmed, non-empty pieces between delimiters, in input order. */
  method Split(s: string, delim: char) returns (result: seq<string>)
    ensures result == SplitFrom(s, delim, 0)
  {
    result := [];
    var pos: nat := 0;
    var next := FindNot(s, ' ', pos);
    while next.Some?
      invariant next == FindNot(s, ' ', pos)
      invariant result + SplitFrom(s, delim, pos) == SplitFrom(s, delim, 0)
      decreases |s| + 1 - pos
    {
      var kept, after;
      kept, after, next := NextToken(s, delim, pos, next.value);
      MoveFront(result, SplitFrom(s, delim, pos), kept, SplitFrom(s, delim, after), SplitFrom(s, delim, 0));
      result := result + kept;
      pos := after;
    }
    SplitFromDone(s, delim, pos, result);
  }

  /**
   * One pass of the loop of Split: the piece from the first non-blank `start` up to
   * the next delimiter, trimmed, and kept when it is not empty; the rest of the line
   * starts after that delimiter.
   */
  method NextToken(s: string, delim: char, pos: nat, start: nat)
    returns (kept: seq<string>, after: nat, next: Option<nat>)
    requires FindNot(s, ' ', pos) == Some(start)
    ensures pos < after <= |s| + 1 && next == FindNot(s, ' ', after)
    ensures SplitFrom(s, delim, pos) == kept + SplitFrom(s, delim, after)
  {
    var delimPos := DelimEnd(s, delim, start);
    var token := Trim(s[start..delimPos]);
    kept := Kept(token);
    after := delimPos + 1;
    next := FindNot(s, ' ', after);
    SplitFromAt(s, delim, pos, start, delimPos);
  }

  /** Past the last non-blank character there is nothing more to split. */
  lemma SplitFromDone(s: string, delim: char, pos: nat, result: seq<string>)
    requires FindNot(s, ' ', pos).None?
    ensures result + SplitFrom(s, delim, pos) == result
  {
    assert result + [] == result;
  }

  /** The pieces of s[pos..] between occurrences of delim (n delimiters give n + 1 pieces). */
  function PiecesFrom(s: string, delim: char, pos: nat): (r: seq<string>)
    requires pos <= |s|
    ensures |r| > 0
    decreases |s| - pos
  {
    match Find(s, delim, pos)
    case None => [s[pos..]]
    case Some(i) => [s[pos..i]] + PiecesFrom(s, delim, i + 1)
  }

  /** The trimmed pieces that are not empty. */
  function Tokens(pieces: seq<string>): seq<string>
    decreases |pieces|
  {
    if pieces == [] then []
    else Kept(Trim(pieces[0])) + Tokens(pieces[1..])
  }

  /** Spaces in front of a slice do not change its trim. */
  lemma TrimAfterSpaces(s: string, pos: nat, p: nat, d: nat)
    requires pos <= p <= d <= |s|
    requires forall k :: pos <= k < p ==> s[k] == ' '
    ensures Trim(s[pos..d]) == Trim(s[p..d])
  {
    var head := s[pos..d];
    assert forall k :: 0 <= k < p - pos ==> head[k] == s[pos + k];
    TrimSkipsLeadingSpaces(head, p - pos);
    assert head[p - pos..] == s[p..d];
  }

  lemma TokensCons(head: string, tail: seq<string>)
    ensures Tokens([head] + tail) == Kept(Trim(head)) + Tokens(tail)
  {
    assert ([head] + tail)[1..] == tail;
  }

  /** With only spaces left, there are no tokens either way. */
  lemma SplitFromIsTokensAtEnd(s: string, delim: char, pos: nat)
    requires delim != ' ' && pos <= |s| && FindNot(s, ' ', pos).None?
    ensures Tokens(PiecesFrom(s, delim, pos)) == []
  {
    var rest := s[pos..];
    FindNotIsFirst(s, ' ', pos);
    FindSkips(s, delim, pos, |s|);
    assert Find(s, delim, |s|) == None;
    assert PiecesFrom(s, delim, pos) == [rest];
    assert forall k :: 0 <= k < |rest| ==> rest[k] == s[pos + k];
    assert AllSpaces(rest);
    TrimEmpty(rest);
    TokensCons(rest, []);
  }

  /** One step of SplitFrom, at the first non-space p and the delimiter (or end) d after it. */
  lemma SplitFromAt(s: string, delim: char, pos: nat, p: nat, d: nat)
    requires FindNot(s, ' ', pos) == Some(p) && d == DelimEnd(s, delim, p)
    ensures SplitFrom(s, delim, pos) == Kept(Trim(s[p..d])) + SplitFrom(s, delim, d + 1)
  {
  }

  /** The pieces from pos: up to the delimiter that ends the first token, then the rest. */
  lemma PiecesFromAt(s: string, delim: char, pos: nat, p: nat, d: nat)
    requires delim != ' ' && pos <= |s| && FindNot(s, ' ', pos) == Some(p) && d == DelimEnd(s, delim, p)
    ensures PiecesFrom(s, delim, pos) == [s[pos..d]] + (if d < |s| then PiecesFrom(s, delim, d + 1) else [])
  {
    FindNotIsFirst(s, ' ', pos);
    FindSkips(s, delim, pos, p);
    if d == |s| {
      assert Find(s, delim, pos).None?;
      assert s[pos..] == s[pos..d];
      assert [s[pos..d]] + [] == [s[pos..d]];
    } else {
      assert Find(s, delim, pos) == Some(d);
    }
  }

  /** The reference reading, one piece at a time. */
  lemma TokensFirstPiece(s: string, delim: char, pos: nat, p: nat, d: nat)
    requires delim != ' ' && pos <= |s| && FindNot(s, ' ', pos) == Some(p) && d == DelimEnd(s, delim, p)
    ensures Tokens(PiecesFrom(s, delim, pos))
      == Kept(Trim(s[p..d])) + (if d < |s| then Tokens(PiecesFrom(s, delim, d + 1)) else [])
  {
    PiecesFromAt(s, delim, pos, p, d);
    FindNotIsFirst(s, ' ', pos);
    TrimAfterSpaces(s, pos, p, d);
    var tail := if d < |s| then PiecesFrom(s, delim, d + 1) else [];
    TokensCons(s[pos..d], tail);
    if d == |s| {
      assert Kept(Trim(s[p..d])) + Tokens([]) == Kept(Trim(s[p..d]));
    }
  }

  /** Split agrees with the reference reading: cut at every delimiter, trim, drop the empty pieces. */
  lemma {:induction false} SplitFromIsTokens(s: string, delim: char, pos: nat)
    requires delim != ' ' && pos <= |s|
    ensures SplitFrom(s, delim, pos) == Tokens(PiecesFrom(s, delim, pos))
    decreases |s| - pos
  {
    if FindNot(s, ' ', pos).None? {
      SplitFromIsTokensAtEnd(s, delim, pos);
      assert SplitFrom(s, delim, pos) == [];
    } else {
      var p := FindNot(s, ' ', pos).value;
      var d := DelimEnd(s, delim, p);
      if d < |s| {
        SplitFromIsTokens(s, delim, d + 1);
        SplitFromIsTokensStep(s, delim, pos, p, d);
      } else {
        SplitFromIsTokensLast(s, delim, pos, p, d);
      }
    }
  }

  /** The inductive step: the first token is the same either way, and so is everything after its delimiter. */
  lemma SplitFromIsTokensStep(s: string, delim: char, pos: nat, p: nat, d: nat)
    requires delim != ' ' && pos <= |s| && FindNot(s, ' ', pos) == Some(p)
    requires d == DelimEnd(s, delim, p) && d < |s|
    requires SplitFrom(s, delim, d + 1) == Tokens(PiecesFrom(s, delim, d + 1))
    ensures SplitFrom(s, delim, pos) == Tokens(PiecesFrom(s, delim, pos))
  {
    SplitFromAt(s, delim, pos, p, d);
    TokensFirstPiece(s, delim, pos, p, d);
  }

  /** The last token: no delimiter follows it. */
  lemma SplitFromIsTokensLast(s: string, delim: char, pos: nat, p: nat, d: nat)
    requires delim != ' ' && pos <= |s| && FindNot(s, ' ', pos) == Some(p)
    requires d == DelimEnd(s, delim, p) && d == |s|
    ensures SplitFrom(s, delim, pos) == Tokens(PiecesFrom(s, delim, pos))
  {
    var head := Kept(Trim(s[p..d]));
    SplitFromAt(s, delim, pos, p, d);
    TokensFirstPiece(s, delim, pos, p, d);
    assert SplitFrom(s, delim, d + 1) == [];
    assert head + [] == head;
  }

  /** The text up to the next delimiter holds no delimiter. */
  lemma DelimEndAvoids(s: string, delim: char, p: nat)
    requires p <= |s|
    ensures delim !in s[p..DelimEnd(s, delim, p)]
  {
    FindIsFirst(s, delim, p);
    var piece := s[p..DelimEnd(s, delim, p)];
    assert forall k :: 0 <= k < |piece| ==> piece[k] == s[p + k];
  }

  /** Trimming adds no character. */
  lemma TrimAvoids(s: string, c: char)
    requires c !in s
    ensures c !in Trim(s)
  {
    if FindNot(s, ' ', 0).Some? {
      FindLastNotIsLast(s, ' ', |s|);
      var start := FindNot(s, ' ', 0).value;
      var t := Trim(s);
      assert forall k :: 0 <= k < |t| ==> t[k] == s[start + k];
    }
  }

  /** A token as Split produces it: non-empty, trimmed and free of the delimiter. */
  predicate GoodToken(t: string, delim: char) {
    t != [] && Trimmed(t) && delim !in t
  }

  /** Every token of ts is one Split could produce. */
  predicate GoodTokens(ts: seq<string>, delim: char)
    decreases |ts|
  {
    ts == [] || (GoodToken(ts[0], delim) && GoodTokens(ts[1..], delim))
  }

  /** GoodTokens, token by token. */
  lemma {:induction false} GoodTokensEach(ts: seq<string>, delim: char)
    requires GoodTokens(ts, delim)
    ensures forall t :: t in ts ==> GoodToken(t, delim)
    decreases |ts|
  {
    if ts != [] {
      GoodTokensEach(ts[1..], delim);
      assert forall t :: t in ts ==> t == ts[0] || t in ts[1..];
    }
  }

  /** Every token Split produces is non-empty, trimmed and free of the delimiter. */
  lemma {:induction false} SplitTokensWellFormed(s: string, delim: char, pos: nat)
    ensures GoodTokens(SplitFrom(s, delim, pos), delim)
    decreases |s| + 1 - pos, 1
  {
    if FindNot(s, ' ', pos).Some? {
      SplitTokensWellFormedAt(s, delim, pos, FindNot(s, ' ', pos).value);
    } else {
      assert SplitFrom(s, delim, pos) == [];
    }
  }

  /** ... where the first token starts at p. */
  lemma {:induction false} SplitTokensWellFormedAt(s: string, delim: char, pos: nat, p: nat)
    requires FindNot(s, ' ', pos) == Some(p)
    ensures GoodTokens(SplitFrom(s, delim, pos), delim)
    decreases |s| + 1 - pos, 0
  {
    var d := DelimEnd(s, delim, p);
    SplitTokensWellFormed(s, delim, d + 1);
    GoodTokensStep(s, delim, pos, p, d);
  }

  /** A good rest after the delimiter at d makes the whole rest from pos good. */
  lemma GoodTokensStep(s: string, delim: char, pos: nat, p: nat, d: nat)
    requires FindNot(s, ' ', pos) == Some(p) && p <= |s| && d == DelimEnd(s, delim, p)
    requires GoodTokens(SplitFrom(s, delim, d + 1), delim)
    ensures GoodTokens(SplitFrom(s, delim, pos), delim)
  {
    var token := Kept(Trim(s[p..d]));
    var rest := SplitFrom(s, delim, d + 1);
    KeptToken(s, delim, p, d);
    SplitFromAt(s, delim, pos, p, d);
    GoodTokensAppend(token, rest, delim);
  }

  /** The token cut at p is good, when it is kept. */
  lemma KeptToken(s: string, delim: char, p: nat, d: nat)
    requires p <= |s| && d == DelimEnd(s, delim, p)
    ensures GoodTokens(Kept(Trim(s[p..d])), delim)
  {
    DelimEndAvoids(s, delim, p);
    TrimAvoids(s[p..d], delim);
    TrimTrimmed(s[p..d]);
    if Trim(s[p..d]) != [] {
      assert Kept(Trim(s[p..d]))[1..] == [];
    }
  }

  lemma {:induction false} GoodTokensAppend(a: seq<string>, b: seq<string>, delim: char)
    requires GoodTokens(a, delim) && GoodTokens(b, delim)
    ensures GoodTokens(a + b, delim)
    decreases |a|
  {
    if a == [] {
      assert a + b == b;
    } else {
      GoodTokensAppend(a[1..], b, delim);
      assert (a + b)[1..] == a[1..] + b;
    }
  }

  /** ParseRoute as written: on a '-' route with no stops, `next(stops.rbegin())` has no defined result (None). */
  function ParseRouteAsWritten(route: string): (r: Option<seq<string>>)
    ensures r.None? <==> Find(route, '>', 0).None? && SplitFrom(route, '-', 0) == []
  {
    if Find(route, '>', 0).Some? then Some(SplitFrom(route, '>', 0))
    else
      var stops := SplitFrom(route, '-', 0);
      if stops == [] then None else Some(OutAndBack(stops))
  }

  /** An empty '-' route reaches the undefined step. */
  lemma EmptyRouteIsUndefined()
    ensures ParseRouteAsWritten("") == None
    ensures ParseRouteAsWritten(" ") == None
  {
    assert FindNot(" ", ' ', 0) == None;
  }

  /** The route a description denotes: '>' routes as listed, '-' routes out and back, an empty '-' route empty. */
  function Route(description: string): seq<string> {
    if Find(description, '>', 0).Some? then SplitFrom(description, '>', 0)
    else
      var stops := SplitFrom(description, '-', 0);
      if stops == [] then [] else OutAndBack(stops)
  }

  /** ParseRoute, with the empty '-' route returning no stops. */
  method ParseRoute(route: string) returns (results: seq<string>)
    ensures results == Route(route)
    ensures ParseRouteAsWritten(route).Some? ==> Some(results) == ParseRouteAsWritten(route)
  {
    if Find(route, '>', 0).Some? {
      results := Split(route, '>');
      return;
    }
    var stops := Split(route, '-');
    results := stops;
    if stops != [] {
      results := results + Reverse(stops[..|stops| - 1]);
    }
  }

  /** A '>' route is exactly its Split; a '-' route of n stops has 2n - 1 entries, reads the same backwards, and starts with its stops. */
  lemma RouteShape(description: string)
    ensures Find(description, '>', 0).Some? ==> Route(description) == SplitFrom(description, '>', 0)
    ensures Find(description, '>', 0).None? ==>
      var stops := SplitFrom(description, '-', 0);
      && |Route(description)| == (if stops == [] then 0 else 2 * |stops| - 1)
      && Route(description)[..|stops|] == stops
      && forall k :: 0 <= k < |Route(description)| ==>
           Route(description)[k] == Route(description)[|Route(description)| - 1 - k]
  {
  }

  // ---------------------------------------------------------------------
  // Commands

  /** Utils::CommandDescription; it is "true" when its command is not empty. */
  datatype CommandDescription = CommandDescription(command: string, id: string, description: string)

  const NoCommand := CommandDescription([], [], [])

  /** ParseCommandDescription: "<command> <id>:<description>", or the empty description. */
  function ParseCommandDescription(line: string): (r: CommandDescription)
    ensures ':' !in line ==> r == NoCommand
  {
    match Find(line, ':', 0)
    case None => NoCommand
    case Some(colon) =>
      match Find(line, ' ', 0)
      case None => NoCommand
      case Some(space) =>
        if space >= colon then NoCommand
        else
          match FindNot(line, ' ', space)
          case None => NoCommand
          case Some(notSpace) =>
            if notSpace >= colon then NoCommand
            else CommandDescription(line[..space], line[notSpace..colon], line[colon + 1..])
  }

  /** A description that is not empty reads back as "<command> <spaces><id>:<description>", with no space in the command, no colon before the description and an id that starts with a non-space. */
  lemma ParseCommandShape(line: string)
    ensures var r := ParseCommandDescription(line);
      r != NoCommand ==>
        && ' ' !in r.command && ':' !in r.command && ':' !in r.id
        && r.id != [] && r.id[0] != ' '
        && exists n: nat :: line == r.command + " " + Spaces(n) + r.id + ":" + r.description
  {
    var r := ParseCommandDescription(line);
    if r != NoCommand {
      var colon := Find(line, ':', 0).value;
      var space := Find(line, ' ', 0).value;
      var notSpace := FindNot(line, ' ', space).value;
      FindIsFirst(line, ':', 0);
      FindIsFirst(line, ' ', 0);
      FindNotIsFirst(line, ' ', space);
      assert forall k :: 0 <= k < |r.command| ==> r.command[k] == line[k];
      assert forall k :: 0 <= k < |r.id| ==> r.id[k] == line[notSpace + k];
      var n := notSpace - space - 1;
      assert line == r.command + " " + Spaces(n) + r.id + ":" + r.description;
    }
  }

  /** Find(s, c, from) is i when i holds the first c at or after from. */
  lemma FindAt(s: string, c: char, from: nat, i: nat)
    requires from <= i < |s| && s[i] == c && forall k :: from <= k < i ==> s[k] != c
    ensures Find(s, c, from) == Some(i)
  {
    FindIsFirst(s, c, from);
  }

  lemma FindNotAt(s: string, c: char, from: nat, i: nat)
    requires from <= i < |s| && s[i] != c && forall k :: from <= k < i ==> s[k] == c
    ensures FindNot(s, c, from) == Some(i)
  {
    FindNotIsFirst(s, c, from);
  }

  /** A line whose first space is not before its first colon, or with only spaces between the two, is rejected. */
  lemma RejectedCommands(line: string, colon: nat, space: nat)
    requires colon < |line| && line[colon] == ':' && forall k :: 0 <= k < colon ==> line[k] != ':'
    requires space < |line| && line[space] == ' ' && forall k :: 0 <= k < space ==> line[k] != ' '
    requires space >= colon || forall k :: space <= k < colon ==> line[k] == ' '
    ensures ParseCommandDescription(line) == NoCommand
  {
    FindAt(line, ':', 0, colon);
    FindAt(line, ' ', 0, space);
    FindNotIsFirst(line, ' ', space);
  }

  lemma Slices(a: string, b: string)
    ensures (a + b)[..|a|] == a && (a + b)[|a|..] == b
  {
  }

  /** A well-formed line is split back into the parts it was made of. */
  lemma ParseCommandRoundTrip(command: string, id: string, description: string, n: nat)
    requires ' ' !in command && ':' !in command
    requires id != [] && id[0] != ' ' && ':' !in id
    ensures ParseCommandDescription(command + " " + Spaces(n) + id + ":" + description)
         == CommandDescription(command, id, description)
  {
    var line := CommandLine(command, id, description, n);
    var idStart := |command| + 1 + n;
    var colon := idStart + |id|;
    LineColon(command, id, description, n);
    LineSpace(command, id, description, n);
    LineSkipsGap(command, id, description, n, |command|);
    LineCommand(command, id, description, n);
    LineId(command, id, description, n);
    LineDescription(command, id, description, n);
  }

  /** The line "<command> <spaces><id>:<description>". */
  function CommandLine(command: string, id: string, description: string, n: nat): string {
    command + " " + Spaces(n) + id + ":" + description
  }

  lemma LineColon(command: string, id: string, description: string, n: nat)
    requires ':' !in command && ':' !in id
    ensures Find(CommandLine(command, id, description, n), ':', 0) == Some(|command| + 1 + n + |id|)
  {
    var line := CommandLine(command, id, description, n);
    var idStart := |command| + 1 + n;
    var colon := idStart + |id|;
    forall k | 0 <= k < colon
      ensures line[k] != ':'
    {
      if k < |command| {
        assert line[k] == command[k];
      } else if k >= idStart {
        assert line[k] == id[k - idStart];
      }
    }
    FindAt(line, ':', 0, colon);
  }

  lemma LineSpace(command: string, id: string, description: string, n: nat)
    requires ' ' !in command
    ensures Find(CommandLine(command, id, description, n), ' ', 0) == Some(|command|)
  {
    var line := CommandLine(command, id, description, n);
    forall k | 0 <= k < |command|
      ensures line[k] != ' '
    {
      assert line[k] == command[k];
    }
    FindAt(line, ' ', 0, |command|);
  }

  /** From anywhere in the gap of spaces, the first non-space is the start of the id. */
  lemma {:induction false} LineSkipsGap(command: string, id: string, description: string, n: nat, k: nat)
    requires id != [] && id[0] != ' '
    requires |command| <= k <= |command| + 1 + n
    ensures FindNot(CommandLine(command, id, description, n), ' ', k) == Some(|command| + 1 + n)
    decreases |command| + 1 + n - k
  {
    var line := CommandLine(command, id, description, n);
    var head := command + " " + Spaces(n);
    if k < |head| {
      assert line[k] == head[k];
      LineSkipsGap(command, id, description, n, k + 1);
    } else {
      assert line[k] == id[0];
    }
  }

  lemma LineCommand(command: string, id: string, description: string, n: nat)
    ensures CommandLine(command, id, description, n)[..|command|] == command
  {
    var line := CommandLine(command, id, description, n);
    assert line == command + (" " + Spaces(n) + id + ":" + description);
    Slices(command, " " + Spaces(n) + id + ":" + description);
  }

  lemma LineId(command: string, id: string, description: string, n: nat)
    ensures CommandLine(command, id, description, n)[|command| + 1 + n..|command| + 1 + n + |id|] == id
  {
    var line := CommandLine(command, id, description, n);
    var head := command + " " + Spaces(n);
    assert line == head + (id + (":" + description));
    Slices(head, id + (":" + description));
    Slices(id, ":" + description);
  }

  lemma LineDescription(command: string, id: string, description: string, n: nat)
    ensures CommandLine(command, id, description, n)[|command| + 1 + n + |id| + 1..] == description
  {
    var line := CommandLine(command, id, description, n);
    Slices(command + " " + Spaces(n) + id + ":", description);
  }

  // ---------------------------------------------------------------------
  // Distances between stops

  /** ParseDistanceToStop: "<D>m to <stop>" gives the stop and D; a missing space throws runtime_error. */
  function ParseDistanceToStop(str: string): (r: Result<(string, int), Exception>)
    ensures Find(str, ' ', 0).None? ==> r == Err(RuntimeError)
    ensures r.Ok? ==> exists d, t :: 0 <= d < t < |str| && str[d] == ' ' && str[t] == ' '
                        && r.value.0 == str[t + 1..] && StoI(str[..d]) == Ok(r.value.1)
  {
    match Find(str, ' ', 0)
    case None => Err(RuntimeError)
    case Some(distanceEnd) =>
      match StoI(str[..distanceEnd])
      case Err(e) => Err(e)
      case Ok(distance) =>
        match Find(str, ' ', distanceEnd + 1)
        case None => Err(RuntimeError)
        case Some(toEnd) => Ok((str[toEnd + 1..], distance))
  }

  /** A well-formed distance item reads back its distance and stop name. */
  lemma ParseDistanceRoundTrip(distance: nat, stop: string)
    requires distance <= IntMax
    ensures ParseDistanceToStop(DecimalText(distance) + "m to " + stop) == Ok((stop, distance))
  {
    var digits := DecimalText(distance);
    var str := digits + "m to " + stop;
    var n := |digits|;
    assert forall k :: 0 <= k < n ==> str[k] == digits[k];
    assert str[n] == 'm' && str[n + 1] == ' ' && str[n + 2] == 't' && str[n + 3] == 'o' && str[n + 4] == ' ';
    FindAt(str, ' ', 0, n + 1);
    var text := str[..n + 1];
    assert text[..n] == digits;
    DecimalTextValue(distance);
    StoIOfDigits(text, n);
    FindAt(str, ' ', n + 2, n + 4);
    assert str[n + 5..] == stop;
  }

  // ---------------------------------------------------------------------
  // Applying the commands

  /** A call the reader makes on the catalogue. Coordinates are passed as the texts given to std::stod. */
  datatype CatalogueCall =
    | AddStopCall(name: string, lat: string, lng: string)
    | SetRoadDistanceCall(from: string, to: string, distance: int)
    | AddBusCall(name: string, route: seq<string>)

  datatype Pass = StopsPass | DistancesPass | BusesPass

  /** One distance token: the SetRoadDistance it makes, or the exception ParseDistanceToStop throws. */
  function DistanceOutcome(id: string, token: string): Outcome<CatalogueCall> {
    match ParseDistanceToStop(token)
    case Err(e) => Outcome([], Some(e))
    case Ok(p) => Outcome([SetRoadDistanceCall(id, p.0, p.1)], None)
  }

  function DistanceOf(id: string): string -> Outcome<CatalogueCall> {
    token => DistanceOutcome(id, token)
  }

  /** The tokens of a Stop description that are road distances: those from index 2 on. */
  function DistanceTokens(tokens: seq<string>): seq<string> {
    if |tokens| <= 2 then [] else tokens[2..]
  }

  /** SetDistances: one SetRoadDistance per distance token, in order, stopping at the first malformed one. */
  function Distances(id: string, tokens: seq<string>): Outcome<CatalogueCall> {
    Each(DistanceTokens(tokens), DistanceOf(id))
  }

  /** What one command does in one pass. */
  function Step(pass: Pass, c: CommandDescription): Outcome<CatalogueCall> {
    match pass
    case StopsPass =>
      if c.command != "Stop" then Outcome([], None)
      else
        var tokens := SplitFrom(c.description, ',', 0);
        if |tokens| < 2 then Outcome([], Some(UndefinedBehaviour))
        else
          var coordinates := ParseCoordinates(tokens[0], tokens[1]);
          if coordinates.Err? then Outcome([], Some(coordinates.error))
          else Outcome([AddStopCall(c.id, coordinates.value.0, coordinates.value.1)], None)
    case DistancesPass =>
      if c.command != "Stop" then Outcome([], None)
      else Distances(c.id, SplitFrom(c.description, ',', 0))
    case BusesPass =>
      if c.command != "Bus" then Outcome([], None)
      else
        var route := ParseRouteAsWritten(c.description);
        if route.None? then Outcome([], Some(UndefinedBehaviour))
        else Outcome([AddBusCall(c.id, route.value)], None)
  }

  /**
   * ParseCoordinates: std::stod of the latitude, then of the longitude. The
   * texts are passed on as they are; a text std::stod does not convert throws
   * invalid_argument.
   */
  function ParseCoordinates(lat: string, lng: string): (r: Result<(string, string), Exception>)
    ensures r.Ok? <==> StoDAccepts(lat) && StoDAccepts(lng)
    ensures r.Ok? ==> r.value == (lat, lng)
    ensures r.Err? ==> r.error == InvalidArgument
  {
    if !StoDAccepts(lat) || !StoDAccepts(lng) then Err(InvalidArgument) else Ok((lat, lng))
  }

  /** One pass over the commands, in order, stopping at the first exception. */
  function RunPass(pass: Pass, commands: seq<CommandDescription>): Outcome<CatalogueCall>
    decreases |commands|
  {
    if commands == [] then Outcome([], None)
    else Then(RunPass(pass, commands[..|commands| - 1]), Step(pass, commands[|commands| - 1]))
  }

  /** ApplyCommands: the stops pass, then the distances pass, then the buses pass. */
  function Apply(commands: seq<CommandDescription>): Outcome<CatalogueCall> {
    Then(Then(RunPass(StopsPass, commands), RunPass(DistancesPass, commands)), RunPass(BusesPass, commands))
  }

  function PassOf(call: CatalogueCall): nat {
    match call
    case AddStopCall(_, _, _) => 0
    case SetRoadDistanceCall(_, _, _) => 1
    case AddBusCall(_, _) => 2
  }

  function PassRank(pass: Pass): nat {
    match pass
    case StopsPass => 0
    case DistancesPass => 1
    case BusesPass => 2
  }

  lemma {:induction false} DistancesCalls(id: string, items: seq<string>)
    ensures forall c :: c in Each(items, DistanceOf(id)).calls ==> PassOf(c) == 1
    decreases |items|
  {
    if items != [] {
      DistancesCalls(id, items[..|items| - 1]);
    }
  }

  lemma {:induction false} RunPassCalls(pass: Pass, commands: seq<CommandDescription>)
    ensures forall c :: c in RunPass(pass, commands).calls ==> PassOf(c) == PassRank(pass)
    decreases |commands|
  {
    if commands != [] {
      RunPassCalls(pass, commands[..|commands| - 1]);
      var c := commands[|commands| - 1];
      if pass == DistancesPass && c.command == "Stop" {
        DistancesCalls(c.id, DistanceTokens(SplitFrom(c.description, ',', 0)));
      }
    }
  }

  /** All stop coordinates are set before any distance, and all distances before any bus. */
  lemma PassesInOrder(commands: seq<CommandDescription>)
    ensures var calls := Apply(commands).calls;
      forall i, j :: 0 <= i < j < |calls| ==> PassOf(calls[i]) <= PassOf(calls[j])
  {
    RunPassCalls(StopsPass, commands);
    RunPassCalls(DistancesPass, commands);
    RunPassCalls(BusesPass, commands);
    var calls := Apply(commands).calls;
    forall i, j | 0 <= i < j < |calls| ensures PassOf(calls[i]) <= PassOf(calls[j]) {
      assert calls[i] in calls && calls[j] in calls;
      var a := RunPass(StopsPass, commands).calls;
      var b := RunPass(DistancesPass, commands).calls;
      var c := RunPass(BusesPass, commands).calls;
      if i < |a| { assert calls[i] in a; }
      else if i < |a| + |b| && j < |a| + |b| { assert calls[i] in b && calls[j] in b; }
      else if i < |a| + |b| { assert calls[i] in b; }
      if j >= |a| + |b| && |calls| == |a| + |b| + |c| { assert calls[j] in c; }
      if j >= |a| && j < |a| + |b| { assert calls[j] in b; }
      if j < |a| { assert calls[j] in a; }
    }
  }

  /**
   * The bus pass makes one AddBus per Bus command, in order, with that
   * command's route, and throws (undefined behaviour) exactly at the first Bus
   * command whose route is an empty '-' route; n counts the buses added.
   */
  lemma {:induction false} BusPassCalls(commands: seq<CommandDescription>)
    ensures var out := RunPass(BusesPass, commands);
      var buses := BusCommands(commands);
      var n := |out.calls|;
      && n <= |buses|
      && out.calls == seq(n, k requires 0 <= k < n <= |buses| => AddBusCall(buses[k].id, Route(buses[k].description)))
      && (forall k :: 0 <= k < n ==> ParseRouteAsWritten(buses[k].description).Some?)
      && (out.error.None? <==> n == |buses|)
      && (out.error.Some? ==> out.error == Some(UndefinedBehaviour) && ParseRouteAsWritten(buses[n].description).None?)
    decreases |commands|
  {
    if commands != [] {
      var init := commands[..|commands| - 1];
      var c := commands[|commands| - 1];
      BusPassCalls(init);
      var before := RunPass(BusesPass, init);
      var buses := BusCommands(commands);
      assert BusCommands(init) == buses[..|BusCommands(init)|];
      if before.error.None? && c.command == "Bus" {
        assert buses[|buses| - 1] == c;
      }
    }
  }

  function BusCommands(commands: seq<CommandDescription>): seq<CommandDescription>
    decreases |commands|
  {
    if commands == [] then []
    else BusCommands(commands[..|commands| - 1])
         + (if commands[|commands| - 1].command == "Bus" then [commands[|commands| - 1]] else [])
  }

  /**
   * AddStop: the first two tokens are the coordinates; with fewer tokens
   * operator[] has no defined result, and a token std::stod does not convert
   * throws invalid_argument.
   */
  method AddStop(c: CommandDescription) returns (out: Outcome<CatalogueCall>)
    requires c.command == "Stop"
    ensures out == Step(StopsPass, c)
  {
    var tokens := Split(c.description, ',');
    if |tokens| < 2 {
      return Outcome([], Some(UndefinedBehaviour));
    }
    var coordinates := ParseCoordinates(tokens[0], tokens[1]);
    if coordinates.Err? {
      return Outcome([], Some(coordinates.error));
    }
    return Outcome([AddStopCall(c.id, coordinates.value.0, coordinates.value.1)], None);
  }

  /** SetDistances: every token from index 2 on is one road distance; a malformed token throws. */
  method SetDistances(c: CommandDescription) returns (out: Outcome<CatalogueCall>)
    ensures out == Distances(c.id, SplitFrom(c.description, ',', 0))
  {
    var tokens := Split(c.description, ',');
    var items := DistanceTokens(tokens);
    out := Outcome([], None);
    for i := 0 to |items|
      invariant out == Each(items[..i], DistanceOf(c.id)) && out.error.None?
    {
      EachStep(items, DistanceOf(c.id), i);
      var parsed := ParseDistanceToStop(items[i]);
      if parsed.Err? {
        ThenThrows(out, DistanceOf(c.id)(items[i]), parsed.error, Each(items[..i + 1], DistanceOf(c.id)));
        EachPrefixError(items, DistanceOf(c.id), i + 1);
        return Outcome(out.calls, Some(parsed.error));
      }
      out := Outcome(out.calls + [SetRoadDistanceCall(c.id, parsed.value.0, parsed.value.1)], None);
    }
    assert items[..|items|] == items;
  }

  /** One command in one pass. */
  method ApplyCommand(pass: Pass, c: CommandDescription) returns (out: Outcome<CatalogueCall>)
    ensures out == Step(pass, c)
  {
    match pass
    case StopsPass =>
      if c.command == "Stop" { out := AddStop(c); } else { out := Outcome([], None); }
    case DistancesPass =>
      if c.command == "Stop" { out := SetDistances(c); } else { out := Outcome([], None); }
    case BusesPass =>
      if c.command == "Bus" {
        var route := ParseRoute(c.description);
        if ParseRouteAsWritten(c.description).None? {
          // next(stops.rbegin()) on an empty vector
          out := Outcome([], Some(UndefinedBehaviour));
        } else {
          out := Outcome([AddBusCall(c.id, route)], None);
        }
      } else {
        out := Outcome([], None);
      }
  }

  /** Once a pass has thrown on a prefix, it has thrown the same way on the whole sequence. */
  lemma {:induction false} PassStops(pass: Pass, commands: seq<CommandDescription>, n: nat)
    requires n <= |commands| && RunPass(pass, commands[..n]).error.Some?
    ensures RunPass(pass, commands) == RunPass(pass, commands[..n])
    decreases |commands| - n
  {
    if n < |commands| {
      assert commands[..|commands| - 1][..n] == commands[..n];
      PassStops(pass, commands[..|commands| - 1], n);
    } else {
      assert commands[..n] == commands;
    }
  }

  class InputReader {
    var commands: seq<CommandDescription>

    constructor ()
      ensures commands == []
    {
      commands := [];
    }

    /** ParseLine: keep the parsed line when it has a command. */
    method ParseLine(line: string)
      modifies this
      ensures var c := ParseCommandDescription(line);
        commands == old(commands) + (if c.command != [] then [c] else [])
    {
      var c := ParseCommandDescription(line);
      if c.command != [] {
        commands := commands + [c];
      }
    }

    /** One of the three loops of ApplyCommands: every stored command in order, until one throws. */
    method ApplyPass(pass: Pass) returns (out: Outcome<CatalogueCall>)
      ensures out == RunPass(pass, commands)
    {
      out := Outcome([], None);
      var i := 0;
      while i < |commands| && out.error == None
        invariant 0 <= i <= |commands|
        invariant out == RunPass(pass, commands[..i])
      {
        assert commands[..i + 1][..i] == commands[..i];
        var step := ApplyCommand(pass, commands[i]);
        out := Then(out, step);
        i := i + 1;
      }
      if out.error.Some? {
        PassStops(pass, commands, i);
      } else {
        assert commands[..i] == commands;
      }
    }

    /** ApplyCommands: the stops pass, then the distances pass, then the buses pass. */
    method ApplyCommands() returns (out: Outcome<CatalogueCall>)
      ensures out == Apply(commands)
    {
      out := ApplyPass(StopsPass);
      if out.error.Some? {
        return;
      }
      var distances := ApplyPass(DistancesPass);
      out := Then(out, distances);
      if out.error.Some? {
        return;
      }
      var buses := ApplyPass(BusesPass);
      out := Then(out, buses);
    }
  }
}
