/** JSON texts and a reader for them, after RFC 8259. A text is a std::string, so a character here
    stands for one byte; text outside ASCII is carried as its UTF-8 bytes. */
module Json {
  import opened Common

  datatype Value =
    | Null
    | Bool(b: bool)
    | Int(n: int)
    | String(s: string)
    | Array(items: seq<Value>)
    | Object(members: seq<Member>)

  datatype Member = Member(name: string, value: Value)

  // ---------------------------------------------------------------------------
  // Printing
  // ---------------------------------------------------------------------------

  function HexDigit(n: nat): char
    requires n < 16
  {
    if n < 10 then '0' + n as char else 'a' + (n - 10) as char
  }

  function EscapeChar(c: char): string {
    if c == '"' then "\\\""
    else if c == '\\' then "\\\\"
    else if c == '\U{08}' then "\\b"
    else if c == '\U{0C}' then "\\f"
    else if c == '\n' then "\\n"
    else if c == '\r' then "\\r"
    else if c == '\t' then "\\t"
    else if c < ' ' then ['\\', 'u', '0', '0', HexDigit(c as int / 16), HexDigit(c as int % 16)]
    else [c]
  }

  function Escape(s: string): string {
    if s == [] then [] else EscapeChar(s[0]) + Escape(s[1..])
  }

  function Digits(n: nat): (d: string)
    ensures d != [] && (d[0] == '0' ==> d == "0")
    ensures forall i :: 0 <= i < |d| ==> IsDigit(d[i])
  {
    if n < 10 then ['0' + n as char] else Digits(n / 10) + ['0' + (n % 10) as char]
  }

  function PrintInt(n: int): string {
    if n < 0 then ['-'] + Digits(-n) else Digits(n)
  }

  function Quoted(s: string): string {
    ['"'] + Escape(s) + ['"']
  }

  function Print(v: Value): string
    decreases v, 1
  {
    match v
    case Null => "null"
    case Bool(b) => if b then "true" else "false"
    case Int(n) => PrintInt(n)
    case String(s) => Quoted(s)
    case Array(items) => ['['] + PrintItems(items) + [']']
    case Object(members) => ['{'] + PrintMembers(members) + ['}']
  }

  function PrintItems(items: seq<Value>): string
    decreases items, 0
  {
    if items == [] then []
    else if |items| == 1 then Print(items[0])
    else Print(items[0]) + [','] + PrintItems(items[1..])
  }

  function PrintMember(m: Member): string
    decreases m, 0
  {
    Quoted(m.name) + [':'] + Print(m.value)
  }

  function PrintMembers(members: seq<Member>): string
    decreases members, 1
  {
    if members == [] then []
    else if |members| == 1 then PrintMember(members[0])
    else PrintMember(members[0]) + [','] + PrintMembers(members[1..])
  }

  // ---------------------------------------------------------------------------
  // Reading strings: section 7 of RFC 8259
  // ---------------------------------------------------------------------------

  predicate IsDigit(c: char) { '0' <= c <= '9' }

  function HexValue(c: char): Option<nat> {
    if '0' <= c <= '9' then Some((c - '0') as int)
    else if 'a' <= c <= 'f' then Some((c - 'a') as int + 10)
    else if 'A' <= c <= 'F' then Some((c - 'A') as int + 10)
    else None
  }

  function Hex4(s: string): Option<nat>
    requires |s| == 4
  {
    var a, b, c, d := HexValue(s[0]), HexValue(s[1]), HexValue(s[2]), HexValue(s[3]);
    if a.Some? && b.Some? && c.Some? && d.Some? then
      Some(0x1000 * a.value + 0x100 * b.value + 0x10 * c.value + d.value)
    else None
  }

  /** The UTF-8 bytes of a code point of the basic plane; surrogates stand for none. */
  function Utf8(code: nat): Option<string> {
    if code < 0x80 then Some([code as char])
    else if code < 0x800 then Some([(0xC0 + code / 0x40) as char, (0x80 + code % 0x40) as char])
    else if 0xD800 <= code < 0xE000 || code >= 0x10000 then None
    else Some([(0xE0 + code / 0x1000) as char, (0x80 + code / 0x40 % 0x40) as char, (0x80 + code % 0x40) as char])
  }

  /** The character after a backslash, other than `u`. */
  function Unescape(c: char): Option<char> {
    match c
    case '"' => Some('"')
    case '\\' => Some('\\')
    case '/' => Some('/')
    case 'b' => Some('\U{08}')
    case 'f' => Some('\U{0C}')
    case 'n' => Some('\n')
    case 'r' => Some('\r')
    case 't' => Some('\t')
    case _ => None
  }

  /** One unit of a string: what it stands for, and what follows it. */
  function ReadUnit(s: string): (r: Option<(string, string)>)
    requires s != []
    ensures r.Some? ==> |r.value.1| < |s|
  {
    if s[0] < ' ' then None
    else if s[0] != '\\' then Some(([s[0]], s[1..]))
    else if |s| < 2 then None
    else if s[1] != 'u' then
      match Unescape(s[1])
      case None => None
      case Some(c) => Some(([c], s[2..]))
    else if |s| < 6 then None
    else
      match Hex4(s[2..6])
      case None => None
      case Some(code) =>
        match Utf8(code)
        case None => None
        case Some(bytes) => Some((bytes, s[6..]))
  }

  /** The rest of a string after its opening quote. */
  function ReadChars(s: string): (r: Option<(string, string)>)
    ensures r.Some? ==> |r.value.1| < |s|
    decreases |s|
  {
    if s == [] then None
    else if s[0] == '"' then Some(([], s[1..]))
    else
      match ReadUnit(s)
      case None => None
      case Some((unit, rest)) =>
        match ReadChars(rest)
        case None => None
        case Some((more, rest')) => Some((unit + more, rest'))
  }

  // ---------------------------------------------------------------------------
  // Reading values
  // ---------------------------------------------------------------------------

  predicate IsSpace(c: char) { c == ' ' || c == '\t' || c == '\n' || c == '\r' }

  function Skip(s: string): (r: string)
    ensures |r| <= |s|
  {
    if s != [] && IsSpace(s[0]) then Skip(s[1..]) else s
  }

  /** The digits at the front of `s` appended to the number `n`, and what follows. */
  function ReadDigits(s: string, n: nat): (r: (nat, string))
    ensures |r.1| <= |s|
  {
    if s != [] && IsDigit(s[0]) then ReadDigits(s[1..], 10 * n + (s[0] - '0') as int) else (n, s)
  }

  /** An integer without a superfluous leading zero; fractions and exponents are not read. */
  function ReadInt(s: string): (r: Option<(int, string)>)
    ensures r.Some? ==> |r.value.1| < |s|
  {
    var negative := s != [] && s[0] == '-';
    var t := if negative then s[1..] else s;
    if t == [] || !IsDigit(t[0]) then None
    else if t[0] == '0' && |t| > 1 && IsDigit(t[1]) then None
    else
      var (n, rest) := ReadDigits(t[1..], (t[0] - '0') as int);
      if rest != [] && (rest[0] == '.' || rest[0] == 'e' || rest[0] == 'E') then None
      else
        var value: int := n;
        Some((if negative then -value else value, rest))
  }

  predicate StartsWith(s: string, word: string) {
    |word| <= |s| && s[..|word|] == word
  }

  function ReadValue(s: string): (r: Option<(Value, string)>)
    ensures r.Some? ==> |r.value.1| < |s|
    decreases |s|, 2
  {
    var t := Skip(s);
    if t == [] then None
    else if t[0] == '"' then
      match ReadChars(t[1..])
      case None => None
      case Some((chars, rest)) => Some((String(chars), rest))
    else if t[0] == '[' then
      var u := Skip(t[1..]);
      if u != [] && u[0] == ']' then Some((Array([]), u[1..]))
      else
        match ReadItems(t[1..])
        case None => None
        case Some((items, rest)) => Some((Array(items), rest))
    else if t[0] == '{' then
      var u := Skip(t[1..]);
      if u != [] && u[0] == '}' then Some((Object([]), u[1..]))
      else
        match ReadMembers(t[1..])
        case None => None
        case Some((members, rest)) => Some((Object(members), rest))
    else if StartsWith(t, "true") then Some((Bool(true), t[4..]))
    else if StartsWith(t, "false") then Some((Bool(false), t[5..]))
    else if StartsWith(t, "null") then Some((Null, t[4..]))
    else
      match ReadInt(t)
      case None => None
      case Some((n, rest)) => Some((Int(n), rest))
  }

  /** One or more values up to the closing bracket. */
  function ReadItems(s: string): (r: Option<(seq<Value>, string)>)
    ensures r.Some? ==> |r.value.1| < |s|
    decreases |s|, 3
  {
    match ReadValue(s)
    case None => None
    case Some((v, rest)) =>
      var t := Skip(rest);
      if t == [] then None
      else if t[0] == ']' then Some(([v], t[1..]))
      else if t[0] != ',' then None
      else
        match ReadItems(t[1..])
        case None => None
        case Some((more, rest')) => Some(([v] + more, rest'))
  }

  function ReadMember(s: string): (r: Option<(Member, string)>)
    ensures r.Some? ==> |r.value.1| < |s|
    decreases |s|, 3
  {
    var t := Skip(s);
    if t == [] || t[0] != '"' then None
    else
      match ReadChars(t[1..])
      case None => None
      case Some((name, rest)) =>
        var u := Skip(rest);
        if u == [] || u[0] != ':' then None
        else
          match ReadValue(u[1..])
          case None => None
          case Some((v, rest')) => Some((Member(name, v), rest'))
  }

  /** One or more members up to the closing brace. */
  function ReadMembers(s: string): (r: Option<(seq<Member>, string)>)
    ensures r.Some? ==> |r.value.1| < |s|
    decreases |s|, 4
  {
    match ReadMember(s)
    case None => None
    case Some((m, rest)) =>
      var t := Skip(rest);
      if t == [] then None
      else if t[0] == '}' then Some(([m], t[1..]))
      else if t[0] != ',' then None
      else
        match ReadMembers(t[1..])
        case None => None
        case Some((more, rest')) => Some(([m] + more, rest'))
  }

  /** A whole text: one value and nothing else but space. */
  function Read(s: string): Option<Value> {
    match ReadValue(s)
    case None => None
    case Some((v, rest)) => if Skip(rest) == [] then Some(v) else None
  }

  // ---------------------------------------------------------------------------
  // Reading back what was printed
  // ---------------------------------------------------------------------------

  lemma EscapeCharReads(c: char, rest: string)
    ensures EscapeChar(c) != [] && EscapeChar(c)[0] != '"'
    ensures ReadUnit(EscapeChar(c) + rest) == Some(([c], rest))
  {
    var e := EscapeChar(c);
    var s := e + rest;
    assert s[|e|..] == rest;
    assert forall i :: 0 <= i < |e| ==> s[i] == e[i];
    if |e| == 6 {
      assert s[2..6] == e[2..];
      HexDigitReads(c as int / 16);
      HexDigitReads(c as int % 16);
    }
  }

  lemma HexDigitReads(n: nat)
    requires n < 16
    ensures HexValue(HexDigit(n)) == Some(n)
  {
  }

  lemma {:induction false} EscapeReads(s: string, rest: string)
    ensures ReadChars(Escape(s) + (['"'] + rest)) == Some((s, rest))
  {
    var tail := ['"'] + rest;
    if s == [] {
      assert [] + tail == tail;
      assert tail[1..] == rest;
    } else {
      var e := EscapeChar(s[0]);
      assert Escape(s) + tail == e + (Escape(s[1..]) + tail);
      EscapeCharReads(s[0], Escape(s[1..]) + tail);
      EscapeReads(s[1..], rest);
      assert (e + (Escape(s[1..]) + tail))[0] == e[0];
      assert [s[0]] + s[1..] == s;
    }
  }

  /** Reading the digits of `n` leaves the number `n` in front of whatever follows. */
  lemma {:induction false} DigitsReadThen(n: nat, rest: string)
    ensures ReadDigits(Digits(n) + rest, 0) == ReadDigits(rest, n)
  {
    if n < 10 {
      assert (Digits(n) + rest)[1..] == rest;
    } else {
      var last := '0' + (n % 10) as char;
      assert Digits(n) + rest == Digits(n / 10) + ([last] + rest);
      DigitsReadThen(n / 10, [last] + rest);
      assert ([last] + rest)[1..] == rest;
    }
  }

  /** What may follow a value: the end, a comma or a closing bracket. */
  predicate Follow(rest: string) {
    rest == [] || rest[0] == ',' || rest[0] == ']' || rest[0] == '}'
  }

  lemma IntReads(n: int, rest: string)
    requires Follow(rest)
    ensures ReadInt(PrintInt(n) + rest) == Some((n, rest))
  {
    hide Digits, ReadDigits, ReadInt;
    var m: nat := if n < 0 then -n else n;
    NaturalReads(m, rest);
    ReadIntStep(Digits(m) + rest, m, rest);
    assert n < 0 ==> PrintInt(n) + rest == ['-'] + (Digits(m) + rest);
  }

  lemma ReadIntStep(t: string, m: nat, rest: string)
    requires Follow(rest)
    requires t != [] && IsDigit(t[0]) && !(t[0] == '0' && |t| > 1 && IsDigit(t[1]))
    requires ReadDigits(t[1..], (t[0] - '0') as int) == (m, rest)
    ensures ReadInt(t) == Some((m, rest))
    ensures ReadInt(['-'] + t) == Some((0 - m, rest))
  {
    hide ReadDigits;
    assert (['-'] + t)[1..] == t;
  }

  lemma NaturalReads(m: nat, rest: string)
    requires Follow(rest)
    ensures var t := Digits(m) + rest;
      && t != [] && IsDigit(t[0]) && !(t[0] == '0' && |t| > 1 && IsDigit(t[1]))
      && ReadDigits(t[1..], (t[0] - '0') as int) == (m, rest)
  {
    hide Digits;
    var d, t := Digits(m), Digits(m) + rest;
    assert t[0] == d[0] && IsDigit(d[0]);
    assert |d| == 1 && |t| > 1 ==> t[1] == rest[0];
    DigitsReadThen(m, rest);
  }

  /** No printed value starts with a space, a bracket that closes or a quote that is not its own. */
  lemma PrintStarts(v: Value)
    ensures Print(v) != []
    ensures var c := Print(v)[0];
      && !IsSpace(c) && c != ']' && c != '}'
      && (c == '"' <==> v.String?) && (c == '[' <==> v.Array?) && (c == '{' <==> v.Object?)
      && (v.Int? ==> c == '-' || IsDigit(c))
  {
  }

  lemma StringReads(s: string, rest: string)
    ensures Quoted(s) + rest == ['"'] + (Escape(s) + (['"'] + rest))
    ensures ReadValue(Quoted(s) + rest) == Some((String(s), rest))
  {
    hide Escape, ReadChars;
    var t := Quoted(s) + rest;
    assert t == ['"'] + (Escape(s) + (['"'] + rest));
    assert t[1..] == Escape(s) + (['"'] + rest);
    EscapeReads(s, rest);
  }

  lemma NumberReads(n: int, rest: string)
    requires Follow(rest)
    ensures ReadValue(Print(Int(n)) + rest) == Some((Int(n), rest))
  {
    hide ReadInt, PrintInt, ReadChars, ReadItems, ReadMembers;
    PrintStarts(Int(n));
    IntReads(n, rest);
    var t := PrintInt(n) + rest;
    assert t[0] == PrintInt(n)[0];
  }

  lemma WordReads(v: Value, rest: string)
    requires v.Null? || v.Bool?
    ensures ReadValue(Print(v) + rest) == Some((v, rest))
  {
    hide ReadInt, ReadChars, ReadItems, ReadMembers;
    var w := Print(v);
    var t := w + rest;
    assert t[..|w|] == w && t[|w|..] == rest;
    assert t[0] == w[0];
    assert StartsWith(t, "true") ==> t[..4][0] == 't';
    assert StartsWith(t, "false") ==> t[..5][0] == 'f';
  }

  /** Every value is read back as printed, and what follows it is left alone. */
  lemma {:induction false} ValueReads(v: Value, rest: string)
    requires Follow(rest)
    ensures ReadValue(Print(v) + rest) == Some((v, rest))
    decreases v, 2
  {
    match v
    case Null => WordReads(v, rest);
    case Bool(_) => WordReads(v, rest);
    case Int(n) => NumberReads(n, rest);
    case String(s) => StringReads(s, rest);
    case Array(items) =>
      if items != [] { ItemsRead(items, rest); }
      ArrayReads(items, rest);
    case Object(members) =>
      if members != [] { MembersRead(members, rest); }
      ObjectReads(members, rest);
  }

  lemma ArrayReads(items: seq<Value>, rest: string)
    requires items != [] ==> ReadItems(PrintItems(items) + ([']'] + rest)) == Some((items, rest))
    ensures ReadValue(Print(Array(items)) + rest) == Some((Array(items), rest))
  {
    hide ReadItems, ReadMembers, ReadChars, ReadInt, PrintItems, ReadValue;
    var inner := PrintItems(items) + ([']'] + rest);
    assert Print(Array(items)) + rest == ['['] + inner;
    if items == [] {
      NoItems();
      assert inner == [']'] + rest;
    } else {
      ItemsStart(items);
      assert inner[0] == PrintItems(items)[0];
    }
    ReadBracket(inner, items, rest);
  }

  lemma NoItems()
    ensures PrintItems([]) == [] && PrintMembers([]) == []
  {
  }

  lemma ReadBracket(inner: string, items: seq<Value>, rest: string)
    requires if items == [] then inner == [']'] + rest
             else inner != [] && !IsSpace(inner[0]) && inner[0] != ']' && ReadItems(inner) == Some((items, rest))
    ensures ReadValue(['['] + inner) == Some((Array(items), rest))
  {
    hide ReadItems, ReadMembers, ReadChars, ReadInt;
    var t := ['['] + inner;
    assert t[1..] == inner;
    assert items == [] ==> inner[1..] == rest;
  }

  lemma ReadBrace(inner: string, members: seq<Member>, rest: string)
    requires if members == [] then inner == ['}'] + rest
             else inner != [] && !IsSpace(inner[0]) && inner[0] != '}' && ReadMembers(inner) == Some((members, rest))
    ensures ReadValue(['{'] + inner) == Some((Object(members), rest))
  {
    hide ReadItems, ReadMembers, ReadChars, ReadInt;
    var t := ['{'] + inner;
    assert t[1..] == inner;
    assert members == [] ==> inner[1..] == rest;
  }

  lemma ItemsStart(items: seq<Value>)
    requires items != []
    ensures PrintItems(items) != [] && !IsSpace(PrintItems(items)[0]) && PrintItems(items)[0] != ']'
  {
    hide Print;
    PrintStarts(items[0]);
  }

  /** One step of the list readers. */
  lemma ReadItemsStep(s: string, v: Value, rest: string)
    requires ReadValue(s) == Some((v, rest)) && rest != [] && (rest[0] == ']' || rest[0] == ',')
    ensures rest[0] == ']' ==> ReadItems(s) == Some(([v], rest[1..]))
    ensures rest[0] == ',' && ReadItems(rest[1..]).Some? ==>
      ReadItems(s) == Some(([v] + ReadItems(rest[1..]).value.0, ReadItems(rest[1..]).value.1))
  {
    hide ReadValue;
  }

  lemma ReadMembersStep(s: string, m: Member, rest: string)
    requires ReadMember(s) == Some((m, rest)) && rest != [] && (rest[0] == '}' || rest[0] == ',')
    ensures rest[0] == '}' ==> ReadMembers(s) == Some(([m], rest[1..]))
    ensures rest[0] == ',' && ReadMembers(rest[1..]).Some? ==>
      ReadMembers(s) == Some(([m] + ReadMembers(rest[1..]).value.0, ReadMembers(rest[1..]).value.1))
  {
    hide ReadMember;
  }

  lemma PrintItemsSplit(items: seq<Value>, end: string)
    requires items != []
    ensures PrintItems(items) + end
         == Print(items[0]) + if |items| == 1 then end else [','] + (PrintItems(items[1..]) + end)
  {
    hide Print;
  }

  lemma PrintMembersSplit(members: seq<Member>, end: string)
    requires members != []
    ensures PrintMembers(members) + end
         == PrintMember(members[0]) + if |members| == 1 then end else [','] + (PrintMembers(members[1..]) + end)
  {
    hide PrintMember;
  }

  lemma {:induction false} ItemsRead(items: seq<Value>, rest: string)
    requires items != []
    ensures ReadItems(PrintItems(items) + ([']'] + rest)) == Some((items, rest))
    decreases items, 1
  {
    hide Print, ReadValue, ReadItems, PrintItems;
    var end := [']'] + rest;
    var tail := if |items| == 1 then end else [','] + (PrintItems(items[1..]) + end);
    PrintItemsSplit(items, end);
    ValueReads(items[0], tail);
    ReadItemsStep(Print(items[0]) + tail, items[0], tail);
    assert tail[1..] == if |items| == 1 then rest else PrintItems(items[1..]) + end;
    if |items| > 1 {
      ItemsRead(items[1..], rest);
    }
    assert items == [items[0]] + items[1..];
    assert |items| == 1 ==> items == [items[0]];
  }

  lemma ObjectReads(members: seq<Member>, rest: string)
    requires members != [] ==> ReadMembers(PrintMembers(members) + (['}'] + rest)) == Some((members, rest))
    ensures ReadValue(Print(Object(members)) + rest) == Some((Object(members), rest))
  {
    hide ReadItems, ReadMembers, ReadChars, ReadInt, PrintMembers, ReadValue;
    var inner := PrintMembers(members) + (['}'] + rest);
    assert Print(Object(members)) + rest == ['{'] + inner;
    if members == [] {
      NoItems();
      assert inner == ['}'] + rest;
    } else {
      MembersStart(members);
      assert inner[0] == PrintMembers(members)[0];
    }
    ReadBrace(inner, members, rest);
  }

  lemma MembersStart(members: seq<Member>)
    requires members != []
    ensures PrintMembers(members) != [] && PrintMembers(members)[0] == '"'
  {
    assert PrintMember(members[0])[0] == '"';
  }

  lemma {:induction false} MemberReads(m: Member, rest: string)
    requires Follow(rest)
    ensures ReadMember(PrintMember(m) + rest) == Some((m, rest))
    decreases m, 3
  {
    hide Print, ReadValue, ReadChars, Escape, Quoted;
    var tail := [':'] + (Print(m.value) + rest);
    assert PrintMember(m) + rest == Quoted(m.name) + tail;
    StringReads(m.name, tail);
    var t := ['"'] + (Escape(m.name) + (['"'] + tail));
    assert t[1..] == Escape(m.name) + (['"'] + tail);
    EscapeReads(m.name, tail);
    assert tail[1..] == Print(m.value) + rest;
    ValueReads(m.value, rest);
  }

  lemma {:induction false} MembersRead(members: seq<Member>, rest: string)
    requires members != []
    ensures ReadMembers(PrintMembers(members) + (['}'] + rest)) == Some((members, rest))
    decreases members, 4
  {
    hide PrintMember, ReadMember, PrintMembers, ReadMembers;
    var end := ['}'] + rest;
    var tail := if |members| == 1 then end else [','] + (PrintMembers(members[1..]) + end);
    PrintMembersSplit(members, end);
    MemberReads(members[0], tail);
    ReadMembersStep(PrintMember(members[0]) + tail, members[0], tail);
    assert tail[1..] == if |members| == 1 then rest else PrintMembers(members[1..]) + end;
    if |members| > 1 {
      MembersRead(members[1..], rest);
    }
    assert members == [members[0]] + members[1..];
    assert |members| == 1 ==> members == [members[0]];
  }

  /** The reader inverts the printer on every value. */
  lemma ReadPrint(v: Value)
    ensures Read(Print(v)) == Some(v)
  {
    ValueReads(v, []);
    assert Print(v) + [] == Print(v);
  }
}
