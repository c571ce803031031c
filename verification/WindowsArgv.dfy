/** Quoting of process arguments by the ConPTY manager, against the rules by which
    CommandLineToArgvW splits a command line.

    A wide string is a sequence of 16-bit code units, so unpaired surrogates are covered. */
module WindowsArgv {

  type WChar = c: int | 0 <= c < 0x10000
  type WString = seq<WChar>

  const NUL: WChar := 0
  const TAB: WChar := 0x09
  const NEWLINE: WChar := 0x0A
  const VTAB: WChar := 0x0B
  const SPACE: WChar := 0x20
  const QUOTE: WChar := 0x22
  const BACKSLASH: WChar := 0x5C

  // ---------------------------------------------------------------------------
  // The quoter
  // ---------------------------------------------------------------------------

  predicate Special(c: WChar) {
    c == SPACE || c == TAB || c == NEWLINE || c == VTAB || c == QUOTE
  }

  predicate NeedsQuotes(argument: WString) {
    exists i :: 0 <= i < |argument| && Special(argument[i])
  }

  function Backslashes(n: nat): (s: WString)
    ensures |s| == n
  {
    seq(n, _ => BACKSLASH)
  }

  /** What is written between the quotes for `argument` when `pending` backslashes have
      been read and not yet written. */
  function Escape(argument: WString, pending: nat): WString {
    if argument == [] then Backslashes(2 * pending)
    else if argument[0] == BACKSLASH then Escape(argument[1..], pending + 1)
    else if argument[0] == QUOTE then
      Backslashes(2 * pending + 1) + [QUOTE] + Escape(argument[1..], 0)
    else
      Backslashes(pending) + [argument[0]] + Escape(argument[1..], 0)
  }

  function Quote(argument: WString): WString {
    if argument == [] then [QUOTE, QUOTE]
    else if NeedsQuotes(argument) then [QUOTE] + Escape(argument, 0) + [QUOTE]
    else argument
  }

  lemma {:induction false} EscapeKeepsLength(argument: WString, pending: nat)
    ensures |Escape(argument, pending)| >= |argument| + pending
  {
    if argument != [] {
      EscapeKeepsLength(argument[1..], if argument[0] == BACKSLASH then pending + 1 else 0);
    }
  }

  method QuoteWindowsArgument(argument: WString) returns (quoted: WString)
    ensures quoted == Quote(argument)
    ensures forall rule :: Split(rule, quoted) == [argument]
    // what needs no quotes is left alone, and everything else gets them
    ensures argument != [] && (forall i :: 0 <= i < |argument| ==> argument[i] !in {0x20, 0x09, 0x0A, 0x0B, 0x22})
      ==> quoted == argument
    ensures argument == [] || (exists i :: 0 <= i < |argument| && argument[i] in {0x20, 0x09, 0x0A, 0x0B, 0x22})
      ==> |quoted| >= |argument| + 2 && quoted[0] == 0x22 && quoted[|quoted| - 1] == 0x22
  {
    EscapeKeepsLength(argument, 0);
    forall rule ensures Split(rule, Quote(argument)) == [argument] {
      SplitQuotedThen(rule, argument, []);
      assert Quote(argument) + [] == Quote(argument);
      assert [argument] + [] == [argument];
    }
    if argument == [] { return [QUOTE, QUOTE]; }
    if !NeedsQuotes(argument) { return argument; }

    quoted := [QUOTE];
    var backslashes := 0;
    for i := 0 to |argument|
      invariant quoted + Escape(argument[i..], backslashes) == [QUOTE] + Escape(argument, 0)
    {
      var ch := argument[i];
      assert argument[i..][0] == ch && argument[i..][1..] == argument[i + 1..];
      if ch == BACKSLASH {
        backslashes := backslashes + 1;
      } else if ch == QUOTE {
        quoted := quoted + Backslashes(2 * backslashes + 1) + [QUOTE];
        backslashes := 0;
      } else {
        quoted := quoted + Backslashes(backslashes) + [ch];
        backslashes := 0;
      }
    }
    quoted := quoted + Backslashes(2 * backslashes) + [QUOTE];
  }

  // ---------------------------------------------------------------------------
  // The splitter: the documented rules of CommandLineToArgvW for the text after the
  // program name
  // ---------------------------------------------------------------------------

  /** What two adjacent quotes mean inside a quoted part. Splitters have differed here over
      the years; every result below holds for each of the three readings. */
  datatype QuoteRule = Toggle | DoubledStays | DoubledLeaves

  /** One pass over the rest `s` of the command line. `current` is the argument being built,
      `started` says whether it exists even if empty, `quoted` whether the scan is inside
      quotes, and `pending` counts the backslashes just read. */
  function Scan(rule: QuoteRule, s: WString, current: WString, started: bool, quoted: bool, pending: nat)
    : seq<WString>
    decreases |s|
  {
    if s == [] then
      if started || pending > 0 then [current + Backslashes(pending)] else []
    else if s[0] == BACKSLASH then
      Scan(rule, s[1..], current, started, quoted, pending + 1)
    else if s[0] == QUOTE then
      var next := current + Backslashes(pending / 2);
      if pending % 2 == 1 then Scan(rule, s[1..], next + [QUOTE], true, quoted, 0)
      else if rule != Toggle && quoted && |s| > 1 && s[1] == QUOTE then
        Scan(rule, s[2..], next + [QUOTE], true, rule == DoubledStays, 0)
      else Scan(rule, s[1..], next, true, !quoted, 0)
    else if !quoted && (s[0] == SPACE || s[0] == TAB) then
      var rest := Scan(rule, s[1..], [], false, false, 0);
      if started || pending > 0 then [current + Backslashes(pending)] + rest else rest
    else
      Scan(rule, s[1..], current + Backslashes(pending) + [s[0]], true, quoted, 0)
  }

  /** A command line ends at its first NUL. */
  function UntilNul(line: WString): (r: WString)
    ensures NUL !in r
    ensures r <= line
    ensures NUL !in line ==> r == line
  {
    if line == [] || line[0] == NUL then [] else [line[0]] + UntilNul(line[1..])
  }

  function Split(rule: QuoteRule, line: WString): seq<WString> {
    Scan(rule, line, [], false, false, 0)
  }

  function Argv(rule: QuoteRule, line: WString): seq<WString> {
    Split(rule, UntilNul(line))
  }

  function Join(arguments: seq<WString>): WString {
    if arguments == [] then []
    else if |arguments| == 1 then Quote(arguments[0])
    else Quote(arguments[0]) + [SPACE] + Join(arguments[1..])
  }

  predicate NulFree(arguments: seq<WString>) {
    forall i :: 0 <= i < |arguments| ==> NUL !in arguments[i]
  }

  // ---------------------------------------------------------------------------
  // Round trip
  // ---------------------------------------------------------------------------

  lemma {:induction false} ScanBackslashes(rule: QuoteRule, n: nat, rest: WString,
                                           current: WString, started: bool, quoted: bool, pending: nat)
    ensures Scan(rule, Backslashes(n) + rest, current, started, quoted, pending)
         == Scan(rule, rest, current, started, quoted, pending + n)
  {
    var s := Backslashes(n) + rest;
    if n == 0 {
      assert s == rest;
    } else {
      assert s[1..] == Backslashes(n - 1) + rest;
      ScanBackslashes(rule, n - 1, rest, current, started, quoted, pending + 1);
    }
  }

  /** One literal character inside quotes, with the backslashes written before it. */
  lemma {:induction false} ScanLiteral(rule: QuoteRule, c: WChar, pending: nat, rest: WString, current: WString)
    requires c != BACKSLASH
    ensures Scan(rule, Backslashes(if c == QUOTE then 2 * pending + 1 else pending) + ([c] + rest),
                 current, true, true, 0)
         == Scan(rule, rest, current + Backslashes(pending) + [c], true, true, 0)
  {
    var written := if c == QUOTE then 2 * pending + 1 else pending;
    ScanBackslashes(rule, written, [c] + rest, current, true, true, 0);
    assert ([c] + rest)[1..] == rest;
  }

  /** The closing quote, with the doubled backslashes before it. */
  lemma {:induction false} ScanClose(rule: QuoteRule, pending: nat, rest: WString, current: WString)
    requires rest == [] || rest[0] != QUOTE
    ensures Scan(rule, Backslashes(2 * pending) + ([QUOTE] + rest), current, true, true, 0)
         == Scan(rule, rest, current + Backslashes(pending), true, false, 0)
  {
    ScanBackslashes(rule, 2 * pending, [QUOTE] + rest, current, true, true, 0);
    assert ([QUOTE] + rest)[1..] == rest;
  }

  lemma {:induction false} ShiftBackslash(current: WString, pending: nat, argument: WString)
    requires argument != [] && argument[0] == BACKSLASH
    ensures current + Backslashes(pending + 1) + argument[1..] == current + Backslashes(pending) + argument
  {
    assert Backslashes(pending + 1) + argument[1..] == Backslashes(pending) + argument;
  }

  lemma {:induction false} ShiftOther(current: WString, pending: nat, argument: WString)
    requires argument != []
    ensures current + Backslashes(pending) + [argument[0]] + Backslashes(0) + argument[1..]
         == current + Backslashes(pending) + argument
  {
    assert [argument[0]] + Backslashes(0) + argument[1..] == argument;
  }

  /** The scanner, inside quotes, reads back exactly what the quoter escaped and stops at the
      closing quote, whatever follows it (but another quote). */
  lemma {:induction false} ScanEscaped(rule: QuoteRule, argument: WString, pending: nat, rest: WString,
                                       current: WString)
    requires rest == [] || rest[0] != QUOTE
    ensures Scan(rule, Escape(argument, pending) + ([QUOTE] + rest), current, true, true, 0)
         == Scan(rule, rest, current + Backslashes(pending) + argument, true, false, 0)
    decreases |argument|
  {
    if argument == [] {
      ScanClose(rule, pending, rest, current);
      assert current + Backslashes(pending) + argument == current + Backslashes(pending);
    } else if argument[0] == BACKSLASH {
      ScanEscaped(rule, argument[1..], pending + 1, rest, current);
      ShiftBackslash(current, pending, argument);
    } else {
      var c, more := argument[0], Escape(argument[1..], 0) + ([QUOTE] + rest);
      EscapeOther(argument, pending, [QUOTE] + rest);
      ScanLiteral(rule, c, pending, more, current);
      ScanEscaped(rule, argument[1..], 0, rest, current + Backslashes(pending) + [c]);
      ShiftOther(current, pending, argument);
    }
  }

  lemma {:induction false} EscapeOther(argument: WString, pending: nat, tail: WString)
    requires argument != [] && argument[0] != BACKSLASH
    ensures Escape(argument, pending) + tail
         == Backslashes(if argument[0] == QUOTE then 2 * pending + 1 else pending)
            + ([argument[0]] + (Escape(argument[1..], 0) + tail))
  {
  }

  /** An argument written without quotes is read back literally, backslashes included. */
  lemma {:induction false} ScanPlain(rule: QuoteRule, argument: WString, rest: WString,
                                     current: WString, started: bool, pending: nat)
    requires !NeedsQuotes(argument)
    requires rest == [] || rest[0] == SPACE
    requires started || pending > 0 || argument != []
    ensures Scan(rule, argument + rest, current, started, false, pending)
         == [current + Backslashes(pending) + argument] + Split(rule, rest[if rest == [] then 0 else 1..])
    decreases |argument|
  {
    if argument == [] {
      assert argument + rest == rest;
      assert current + Backslashes(pending) + argument == current + Backslashes(pending);
    } else {
      var s := argument + rest;
      assert !Special(argument[0]);
      assert s[1..] == argument[1..] + rest;
      assert forall i :: 0 <= i < |argument| - 1 ==> argument[1..][i] == argument[i + 1];
      if argument[0] == BACKSLASH {
        ScanPlain(rule, argument[1..], rest, current, started, pending + 1);
        assert current + Backslashes(pending + 1) + argument[1..] == current + Backslashes(pending) + argument;
      } else {
        var next := current + Backslashes(pending) + [argument[0]];
        ScanPlain(rule, argument[1..], rest, next, true, 0);
        assert next + Backslashes(0) + argument[1..] == current + Backslashes(pending) + argument;
      }
    }
  }

  /** One quoted argument, followed by the end of the line or by a space, is read back as
      itself, and what follows is split as if it stood alone. */
  lemma {:induction false} SplitQuotedThen(rule: QuoteRule, argument: WString, rest: WString)
    requires rest == [] || rest[0] == SPACE
    ensures Split(rule, Quote(argument) + rest)
         == [argument] + Split(rule, rest[if rest == [] then 0 else 1..])
  {
    if argument != [] && !NeedsQuotes(argument) {
      ScanPlain(rule, argument, rest, [], false, 0);
      assert [] + Backslashes(0) + argument == argument;
    } else {
      OpenQuote(rule, argument, rest);
      ScanEscaped(rule, argument, 0, rest, []);
      assert [] + Backslashes(0) + argument == argument;
      assert argument + Backslashes(0) == argument;
    }
  }

  lemma {:induction false} OpenQuote(rule: QuoteRule, argument: WString, rest: WString)
    requires argument == [] || NeedsQuotes(argument)
    ensures Split(rule, Quote(argument) + rest)
         == Scan(rule, Escape(argument, 0) + ([QUOTE] + rest), [], true, true, 0)
  {
    hide Escape, NeedsQuotes, Scan;
    EscapeNothing();
    var body := Escape(argument, 0) + ([QUOTE] + rest);
    assert Quote(argument) + rest == [QUOTE] + body;
    ScanOpen(rule, body);
  }

  lemma EscapeNothing()
    ensures Escape([], 0) == []
  {
  }

  lemma ScanOpen(rule: QuoteRule, body: WString)
    ensures Scan(rule, [QUOTE] + body, [], false, false, 0) == Scan(rule, body, [], true, true, 0)
  {
    assert ([QUOTE] + body)[1..] == body;
    assert [] + Backslashes(0) == [];
  }

  lemma {:induction false} SplitJoin(rule: QuoteRule, arguments: seq<WString>)
    ensures Split(rule, Join(arguments)) == arguments
  {
    if arguments != [] {
      var rest := if |arguments| == 1 then [] else [SPACE] + Join(arguments[1..]);
      assert Join(arguments) == Quote(arguments[0]) + rest;
      SplitQuotedThen(rule, arguments[0], rest);
      SplitJoin(rule, arguments[1..]);
      assert arguments == [arguments[0]] + arguments[1..];
      if |arguments| > 1 {
        assert rest[1..] == Join(arguments[1..]);
      }
    }
  }

  lemma {:induction false} NulInEscape(argument: WString, pending: nat)
    ensures NUL in Escape(argument, pending) <==> NUL in argument
  {
    if argument != [] {
      assert argument == [argument[0]] + argument[1..];
      NulInEscape(argument[1..], if argument[0] == BACKSLASH then pending + 1 else 0);
    }
  }

  lemma {:induction false} NulInJoin(arguments: seq<WString>)
    requires NulFree(arguments)
    ensures NUL !in Join(arguments)
  {
    if arguments != [] {
      NulInEscape(arguments[0], 0);
      NulInJoin(arguments[1..]);
    }
  }

  /** Nothing is invented: every argument read from a NUL-free line is NUL-free. */
  lemma {:induction false} ScanNulFree(rule: QuoteRule, s: WString, current: WString, started: bool,
                                       quoted: bool, pending: nat)
    requires NUL !in s && NUL !in current
    ensures NulFree(Scan(rule, s, current, started, quoted, pending))
    decreases |s|
  {
    if s != [] {
      if s[0] == BACKSLASH {
        ScanNulFree(rule, s[1..], current, started, quoted, pending + 1);
      } else if s[0] == QUOTE {
        var next := current + Backslashes(pending / 2);
        if pending % 2 == 1 {
          ScanNulFree(rule, s[1..], next + [QUOTE], true, quoted, 0);
        } else if rule != Toggle && quoted && |s| > 1 && s[1] == QUOTE {
          ScanNulFree(rule, s[2..], next + [QUOTE], true, rule == DoubledStays, 0);
        } else {
          ScanNulFree(rule, s[1..], next, true, !quoted, 0);
        }
      } else if !quoted && (s[0] == SPACE || s[0] == TAB) {
        ScanNulFree(rule, s[1..], [], false, false, 0);
      } else {
        ScanNulFree(rule, s[1..], current + Backslashes(pending) + [s[0]], true, quoted, 0);
      }
    }
  }

  /** The round trip holds for exactly the argument lists without a NUL. */
  lemma QuoteRoundTrip(rule: QuoteRule, arguments: seq<WString>)
    ensures Argv(rule, Join(arguments)) == arguments <==> NulFree(arguments)
  {
    if NulFree(arguments) {
      NulInJoin(arguments);
      SplitJoin(rule, arguments);
    }
    ScanNulFree(rule, UntilNul(Join(arguments)), [], false, false, 0);
  }

  /** Different argument lists never give the same command line. */
  lemma JoinInjective(a: seq<WString>, b: seq<WString>)
    requires Join(a) == Join(b)
    ensures a == b
  {
    SplitJoin(Toggle, a);
    SplitJoin(Toggle, b);
  }

  // ---------------------------------------------------------------------------
  // The command line of a WSL session
  // ---------------------------------------------------------------------------

  const CD: WString := [0x2D, 0x2D, 0x63, 0x64]    // --cd
  const HOME: WString := [0x7E]                    // ~
  const D: WString := [0x2D, 0x64]                 // -d

  /** What is appended to `wsl.exe`, or to its quoted absolute path; `distro` may be empty. */
  function WslTail(distro: WString): WString {
    if distro == [] then CD + [SPACE] + HOME
    else CD + [SPACE] + HOME + [SPACE] + D + [SPACE] + Quote(distro)
  }

  /** The words of the command line. */
  lemma WordsOf()
    ensures |CD| == 4 && forall i :: 0 <= i < 4 ==> CD[i] == "--cd"[i] as int
    ensures |HOME| == 1 && HOME[0] == '~' as int
    ensures |D| == 2 && forall i :: 0 <= i < 2 ==> D[i] == "-d"[i] as int
  {
  }

  lemma {:induction false} JoinTwo(head: WString, rest: seq<WString>)
    requires head != [] && !NeedsQuotes(head) && rest != []
    ensures Join([head] + rest) == head + [SPACE] + Join(rest)
  {
    assert ([head] + rest)[1..] == rest;
  }

  lemma WslTailJoins(distro: WString)
    ensures WslTail(distro) == Join(if distro == [] then [CD, HOME] else [CD, HOME, D, distro])
  {
    assert !NeedsQuotes(CD) && !NeedsQuotes(HOME) && !NeedsQuotes(D);
    if distro == [] {
      JoinTwo(CD, [HOME]);
    } else {
      JoinTwo(D, [distro]);
      JoinTwo(HOME, [D] + [distro]);
      JoinTwo(CD, [HOME] + ([D] + [distro]));
      assert [CD] + ([HOME] + ([D] + [distro])) == [CD, HOME, D, distro];
      Reassociate(CD, HOME, D, Quote(distro));
    }
  }

  lemma {:induction false} Reassociate(a: WString, b: WString, c: WString, d: WString)
    ensures a + [SPACE] + b + [SPACE] + c + [SPACE] + d
         == a + [SPACE] + (b + [SPACE] + (c + [SPACE] + d))
  {
  }

  /** Whatever the distribution name holds, the shell receives it as one argument after `-d`
      and no other argument changes; a name with a NUL is the only exception. */
  lemma WslArguments(rule: QuoteRule, distro: WString)
    ensures NUL !in distro
       <==> Argv(rule, WslTail(distro)) == if distro == [] then [CD, HOME] else [CD, HOME, D, distro]
  {
    WslTailJoins(distro);
    var arguments := if distro == [] then [CD, HOME] else [CD, HOME, D, distro];
    QuoteRoundTrip(rule, arguments);
    assert NulFree(arguments) ==> NUL !in arguments[|arguments| - 1];
  }
}
