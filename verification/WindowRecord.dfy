/** The JSON form of a window record. */
module WindowRecord {
  import opened Common
  import opened Json

  datatype Bounds = Bounds(x: int, y: int, width: int, height: int)

  datatype Record = Record(
    id: string,
    platform: string,
    pid: nat,
    hwnd: nat,
    title: string,
    appId: string,
    state: string,
    bounds: Bounds,
    minimized: bool,
    maximized: bool,
    fullscreen: bool,
    visible: bool,
    focused: bool,
    monitorId: string,
    workspaceId: int,
    parentWindowId: string,
    ownerWindowId: string,
    capabilities: seq<string>)

  // ---------------------------------------------------------------------------
  // The record as a JSON value
  // ---------------------------------------------------------------------------

  function BoundsValue(b: Bounds): Value {
    Object([Member("x", Int(b.x)), Member("y", Int(b.y)),
            Member("width", Int(b.width)), Member("height", Int(b.height))])
  }

  function Strings(s: seq<string>): (v: seq<Value>)
    ensures |v| == |s| && forall i :: 0 <= i < |s| ==> v[i] == String(s[i])
  {
    seq(|s|, i requires 0 <= i < |s| => String(s[i]))
  }

  // ---------------------------------------------------------------------------
  // The printer
  // ---------------------------------------------------------------------------

  /** The switch of EscapeJson. */
  method EscapeOne(c: char) returns (t: string)
    ensures t == EscapeChar(c)
  {
    match c {
      case '"' => t := "\\\"";
      case '\\' => t := "\\\\";
      case '\U{08}' => t := "\\b";
      case '\U{0C}' => t := "\\f";
      case '\n' => t := "\\n";
      case '\r' => t := "\\r";
      case '\t' => t := "\\t";
      case _ =>
        if c < ' ' {
          t := ['\\', 'u', '0', '0', HexDigit(c as int / 16), HexDigit(c as int % 16)];
        } else {
          t := [c];
        }
    }
  }

  method EscapeJson(s: string) returns (r: string)
    ensures r == Escape(s)
  {
    hide EscapeChar;
    r := [];
    for i := 0 to |s|
      invariant r + Escape(s[i..]) == Escape(s)
    {
      assert s[i..][0] == s[i] && s[i..][1..] == s[i + 1..];
      var t := EscapeOne(s[i]);
      assert r + t + Escape(s[i + 1..]) == r + (t + Escape(s[i + 1..]));
      r := r + t;
    }
    assert s[|s|..] == [];
  }

  // ---------------------------------------------------------------------------
  // The stream that ToJson writes to
  // ---------------------------------------------------------------------------

  /** An object whose closing brace is still missing. */
  function Open(members: seq<Member>): string {
    ['{'] + PrintMembers(members)
  }

  /** What separates a member from those before it. */
  function Comma(members: seq<Member>): string {
    if members == [] then [] else [',']
  }

  lemma {:induction false} PrintMembersSnoc(members: seq<Member>, m: Member)
    ensures PrintMembers(members + [m]) == PrintMembers(members) + Comma(members) + PrintMember(m)
  {
    hide PrintMember;
    var all := members + [m];
    if |members| <= 1 {
      assert all[1..] == if members == [] then [] else [m];
    } else {
      assert all[1..] == members[1..] + [m];
      PrintMembersSnoc(members[1..], m);
    }
  }

  /** A name that needs no escapes. */
  predicate Plain(name: string) {
    forall i :: 0 <= i < |name| ==> ' ' <= name[i] && name[i] != '"' && name[i] != '\\'
  }

  lemma {:induction false} PlainEscapes(name: string)
    requires Plain(name)
    ensures Escape(name) == name
  {
    if name != [] {
      PlainEscapes(name[1..]);
      assert name == [name[0]] + name[1..];
    }
  }

  /** `"name":` after the comma, if any. */
  method AppendName(ss: string, name: string, ghost members: seq<Member>, first: bool) returns (text: string)
    requires Plain(name) && ss == Open(members) && first == (members == [])
    ensures forall v :: text + Print(v) == Open(members + [Member(name, v)])
  {
    hide Escape, Print, PrintMembers;
    text := ss + (if first then [] else [',']) + (['"'] + name + ['"'] + [':']);
    PlainEscapes(name);
    forall v ensures text + Print(v) == Open(members + [Member(name, v)]) {
      PrintMembersSnoc(members, Member(name, v));
      assert PrintMember(Member(name, v)) == ['"'] + name + ['"'] + [':'] + Print(v);
    }
  }

  method AppendString(ss: string, name: string, s: string, ghost members: seq<Member>) returns (text: string)
    requires Plain(name) && ss == Open(members) && members != []
    ensures text == Open(members + [Member(name, String(s))])
  {
    hide Escape, PrintMembers;
    var t := AppendName(ss, name, members, false);
    var escaped := EscapeJson(s);
    text := t + (['"'] + escaped + ['"']);
    assert text == t + Print(String(s));
  }

  method AppendInt(ss: string, name: string, n: int, ghost members: seq<Member>) returns (text: string)
    requires Plain(name) && ss == Open(members) && members != []
    ensures text == Open(members + [Member(name, Int(n))])
  {
    hide PrintMembers;
    var t := AppendName(ss, name, members, false);
    text := t + PrintInt(n);
    assert text == t + Print(Int(n));
  }

  method AppendBool(ss: string, name: string, b: bool, ghost members: seq<Member>) returns (text: string)
    requires Plain(name) && ss == Open(members) && members != []
    ensures text == Open(members + [Member(name, Bool(b))])
  {
    hide PrintMembers;
    var t := AppendName(ss, name, members, false);
    text := t + if b then "true" else "false";
    assert text == t + Print(Bool(b));
  }

  method PrintBounds(b: Bounds) returns (text: string)
    ensures text == Print(BoundsValue(b))
  {
    hide PrintMembers;
    ghost var none: seq<Member> := [];
    NoMembers();
    var ss := AppendName(['{'], "x", none, true);
    ghost var x := [Member("x", Int(b.x))];
    ss := ss + PrintInt(b.x);
    assert ss == Open(none + x) by { assert Print(Int(b.x)) == PrintInt(b.x); }
    assert none + x == x;
    ss := AppendInt(ss, "y", b.y, x);
    ss := AppendInt(ss, "width", b.width, x + [Member("y", Int(b.y))]);
    ss := AppendInt(ss, "height", b.height, x + [Member("y", Int(b.y))] + [Member("width", Int(b.width))]);
    ghost var all := x + [Member("y", Int(b.y))] + [Member("width", Int(b.width))] + [Member("height", Int(b.height))];
    assert all == BoundsValue(b).members;
    text := ss + ['}'];
  }

  lemma NoMembers()
    ensures Open([]) == ['{']
  {
  }

  method PrintCapabilities(capabilities: seq<string>) returns (text: string)
    ensures text == Print(Array(Strings(capabilities)))
  {
    hide Escape, PrintItems;
    text := ['['];
    NoItems();
    assert Strings(capabilities)[..0] == [];
    for i := 0 to |capabilities|
      invariant text == ['['] + PrintItems(Strings(capabilities)[..i])
    {
      ghost var values := Strings(capabilities);
      PrintItemsSnoc(values[..i], values[i]);
      assert values[..i + 1] == values[..i] + [values[i]];
      if i > 0 { text := text + [',']; }
      var escaped := EscapeJson(capabilities[i]);
      text := text + (['"'] + escaped + ['"']);
    }
    assert Strings(capabilities)[..|capabilities|] == Strings(capabilities);
    text := text + [']'];
  }

  lemma {:induction false} PrintItemsSnoc(items: seq<Value>, v: Value)
    ensures PrintItems(items + [v]) == PrintItems(items) + (if items == [] then [] else [',']) + Print(v)
  {
    hide Print;
    var all := items + [v];
    if |items| <= 1 {
      assert all[1..] == if items == [] then [] else [v];
    } else {
      assert all[1..] == items[1..] + [v];
      PrintItemsSnoc(items[1..], v);
    }
  }

  // ---------------------------------------------------------------------------
  // The whole record
  // ---------------------------------------------------------------------------

  function Identity(r: Record): seq<Member> {
    [ Member("id", String(r.id)), Member("platform", String(r.platform)), Member("pid", Int(r.pid)),
      Member("hwnd", Int(r.hwnd)), Member("title", String(r.title)), Member("appId", String(r.appId)),
      Member("state", String(r.state)) ]
  }

  function Flags(r: Record): seq<Member> {
    [ Member("minimized", Bool(r.minimized)), Member("maximized", Bool(r.maximized)),
      Member("fullscreen", Bool(r.fullscreen)), Member("visible", Bool(r.visible)),
      Member("focused", Bool(r.focused)) ]
  }

  function Relations(r: Record): seq<Member> {
    [ Member("monitorId", String(r.monitorId)), Member("workspaceId", Int(r.workspaceId)),
      Member("parentWindowId", String(r.parentWindowId)), Member("ownerWindowId", String(r.ownerWindowId)) ]
  }

  method AppendIdentity(r: Record) returns (ss: string)
    ensures ss == Open(Identity(r))
  {
    hide Open, Escape;
    NoMembers();
    ghost var m: seq<Member> := [];
    ss := AppendName(['{'], "id", m, true);
    var escaped := EscapeJson(r.id);
    ss := ss + (['"'] + escaped + ['"']);
    assert Print(String(r.id)) == ['"'] + escaped + ['"'];
    m := m + [Member("id", String(r.id))];
    ss := AppendString(ss, "platform", r.platform, m);
    m := m + [Member("platform", String(r.platform))];
    ss := AppendInt(ss, "pid", r.pid, m);
    m := m + [Member("pid", Int(r.pid))];
    ss := AppendInt(ss, "hwnd", r.hwnd, m);
    m := m + [Member("hwnd", Int(r.hwnd))];
    ss := AppendString(ss, "title", r.title, m);
    m := m + [Member("title", String(r.title))];
    ss := AppendString(ss, "appId", r.appId, m);
    m := m + [Member("appId", String(r.appId))];
    ss := AppendString(ss, "state", r.state, m);
    m := m + [Member("state", String(r.state))];
    assert m == Identity(r);
  }

  method AppendFlags(text: string, r: Record, ghost before: seq<Member>) returns (ss: string)
    requires text == Open(before) && before != []
    ensures ss == Open(before + Flags(r))
  {
    hide Open;
    ghost var m := before;
    ss := AppendBool(text, "minimized", r.minimized, m);
    m := m + [Member("minimized", Bool(r.minimized))];
    ss := AppendBool(ss, "maximized", r.maximized, m);
    m := m + [Member("maximized", Bool(r.maximized))];
    ss := AppendBool(ss, "fullscreen", r.fullscreen, m);
    m := m + [Member("fullscreen", Bool(r.fullscreen))];
    ss := AppendBool(ss, "visible", r.visible, m);
    m := m + [Member("visible", Bool(r.visible))];
    ss := AppendBool(ss, "focused", r.focused, m);
    m := m + [Member("focused", Bool(r.focused))];
    assert m == before + Flags(r);
  }

  method AppendRelations(text: string, r: Record, ghost before: seq<Member>) returns (ss: string)
    requires text == Open(before) && before != []
    ensures ss == Open(before + Relations(r))
  {
    hide Open;
    ghost var m := before;
    ss := AppendString(text, "monitorId", r.monitorId, m);
    m := m + [Member("monitorId", String(r.monitorId))];
    ss := AppendInt(ss, "workspaceId", r.workspaceId, m);
    m := m + [Member("workspaceId", Int(r.workspaceId))];
    ss := AppendString(ss, "parentWindowId", r.parentWindowId, m);
    m := m + [Member("parentWindowId", String(r.parentWindowId))];
    ss := AppendString(ss, "ownerWindowId", r.ownerWindowId, m);
    m := m + [Member("ownerWindowId", String(r.ownerWindowId))];
    assert m == before + Relations(r);
  }

  function Members(r: Record): seq<Member> {
    Identity(r) + [Member("bounds", BoundsValue(r.bounds))] + Flags(r) + Relations(r)
    + [Member("capabilities", Array(Strings(r.capabilities)))]
  }

  /** What ToJson writes is the printed form of the record's members, in order, so a JSON reader
      gets back every field. */
  method ToJson(r: Record) returns (json: string)
    ensures json == Print(Object(Members(r)))
    ensures RecordOf(json) == Some(r)
  {
    hide PrintMembers, PrintItems, Identity, Flags, Relations, Strings, BoundsValue, RecordOf;
    var ss := AppendIdentity(r);
    NonEmpty(r);
    ghost var m := Identity(r);
    ss := AppendName(ss, "bounds", m, false);
    var bounds := PrintBounds(r.bounds);
    ss := ss + bounds;
    m := m + [Member("bounds", BoundsValue(r.bounds))];
    assert ss == Open(m);
    ss := AppendFlags(ss, r, m);
    m := m + Flags(r);
    ss := AppendRelations(ss, r, m);
    m := m + Relations(r);
    ss := AppendName(ss, "capabilities", m, false);
    var capabilities := PrintCapabilities(r.capabilities);
    ss := ss + capabilities;
    assert ss == Open(Members(r));
    json := ss + ['}'];
    RoundTrip(r);
  }

  lemma NonEmpty(r: Record)
    ensures Identity(r) != []
  {
  }

  // ---------------------------------------------------------------------------
  // A reader that looks the fields up by their names
  // ---------------------------------------------------------------------------

  const NAMES: seq<string> := [
    "id", "platform", "pid", "hwnd", "title", "appId", "state", "bounds", "minimized", "maximized", "fullscreen",
    "visible", "focused", "monitorId", "workspaceId", "parentWindowId", "ownerWindowId", "capabilities" ]

  lemma Names(r: Record)
    ensures |Members(r)| == |NAMES| && forall i :: 0 <= i < |NAMES| ==> Members(r)[i].name == NAMES[i]
  {
  }

  /** No name occurs twice. */
  lemma NamesAreUnique(i: nat, j: nat)
    requires i < j < |NAMES|
    ensures NAMES[i] != NAMES[j]
  {
  }

  function Lookup(members: seq<Member>, name: string): Value {
    if members == [] then Null
    else if members[0].name == name then members[0].value
    else Lookup(members[1..], name)
  }

  lemma {:induction false} LookupFinds(members: seq<Member>, i: nat)
    requires i < |members| && forall j :: 0 <= j < i ==> members[j].name != members[i].name
    ensures Lookup(members, members[i].name) == members[i].value
  {
    if i > 0 {
      LookupFinds(members[1..], i - 1);
    }
  }

  function AsString(v: Value): string { if v.String? then v.s else [] }
  function AsInt(v: Value): int { if v.Int? then v.n else 0 }
  function AsNat(v: Value): nat { if v.Int? && v.n >= 0 then v.n else 0 }
  function AsBool(v: Value): bool { v.Bool? && v.b }

  function AsBounds(v: Value): Bounds {
    if v.Object? then
      Bounds(AsInt(Lookup(v.members, "x")), AsInt(Lookup(v.members, "y")),
             AsInt(Lookup(v.members, "width")), AsInt(Lookup(v.members, "height")))
    else Bounds(0, 0, 0, 0)
  }

  function AsStrings(v: Value): seq<string> {
    if v.Array? then seq(|v.items|, i requires 0 <= i < |v.items| => AsString(v.items[i])) else []
  }

  /** The record that a JSON text describes; a field that is missing takes a default. */
  function RecordOf(json: string): Option<Record> {
    match Read(json)
    case Some(Object(m)) => Some(FromMembers(m))
    case _ => None
  }

  function FromMembers(m: seq<Member>): Record {
    Record(
      AsString(Lookup(m, "id")), AsString(Lookup(m, "platform")), AsNat(Lookup(m, "pid")), AsNat(Lookup(m, "hwnd")),
      AsString(Lookup(m, "title")), AsString(Lookup(m, "appId")), AsString(Lookup(m, "state")),
      AsBounds(Lookup(m, "bounds")),
      AsBool(Lookup(m, "minimized")), AsBool(Lookup(m, "maximized")), AsBool(Lookup(m, "fullscreen")),
      AsBool(Lookup(m, "visible")), AsBool(Lookup(m, "focused")),
      AsString(Lookup(m, "monitorId")), AsInt(Lookup(m, "workspaceId")),
      AsString(Lookup(m, "parentWindowId")), AsString(Lookup(m, "ownerWindowId")),
      AsStrings(Lookup(m, "capabilities")))
  }

  lemma LookupMember(r: Record, i: nat)
    requires i < |NAMES|
    ensures |Members(r)| == |NAMES| && Lookup(Members(r), NAMES[i]) == Members(r)[i].value
  {
    hide Members;
    Names(r);
    forall j | 0 <= j < i ensures Members(r)[j].name != Members(r)[i].name {
      NamesAreUnique(j, i);
    }
    LookupFinds(Members(r), i);
  }

  lemma LookupEach(r: Record)
    ensures |Members(r)| == |NAMES|
    ensures forall i :: 0 <= i < |NAMES| ==> Lookup(Members(r), NAMES[i]) == Members(r)[i].value
  {
    hide Members, Lookup;
    Names(r);
    forall i | 0 <= i < |NAMES| ensures Lookup(Members(r), NAMES[i]) == Members(r)[i].value {
      LookupMember(r, i);
    }
  }

  lemma BoundsRead(b: Bounds)
    ensures AsBounds(BoundsValue(b)) == b
  {
    var m := BoundsValue(b).members;
    LookupFinds(m, 0);
    LookupFinds(m, 1);
    LookupFinds(m, 2);
    LookupFinds(m, 3);
  }

  lemma Fields(r: Record)
    ensures var m := Members(r);
      && |m| == 18
      && m[0].value == String(r.id) && m[1].value == String(r.platform) && m[2].value == Int(r.pid)
      && m[3].value == Int(r.hwnd) && m[4].value == String(r.title) && m[5].value == String(r.appId)
      && m[6].value == String(r.state) && m[7].value == BoundsValue(r.bounds)
      && m[8].value == Bool(r.minimized) && m[9].value == Bool(r.maximized) && m[10].value == Bool(r.fullscreen)
      && m[11].value == Bool(r.visible) && m[12].value == Bool(r.focused)
      && m[13].value == String(r.monitorId) && m[14].value == Int(r.workspaceId)
      && m[15].value == String(r.parentWindowId) && m[16].value == String(r.ownerWindowId)
      && m[17].value == Array(Strings(r.capabilities))
  {
    hide Strings, BoundsValue;
  }

  lemma FromMembersOf(r: Record)
    ensures FromMembers(Members(r)) == r
  {
    hide Lookup, Members, BoundsValue, Strings, AsBounds;
    LookupEach(r);
    Fields(r);
    BoundsRead(r.bounds);
    assert AsStrings(Array(Strings(r.capabilities))) == r.capabilities by { StringsRead(r.capabilities); }
    var m := Members(r);
    assert Lookup(m, NAMES[0]) == m[0].value && Lookup(m, NAMES[1]) == m[1].value && Lookup(m, NAMES[2]) == m[2].value;
    assert Lookup(m, NAMES[3]) == m[3].value && Lookup(m, NAMES[4]) == m[4].value && Lookup(m, NAMES[5]) == m[5].value;
    assert Lookup(m, NAMES[6]) == m[6].value && Lookup(m, NAMES[7]) == m[7].value && Lookup(m, NAMES[8]) == m[8].value;
    assert Lookup(m, NAMES[9]) == m[9].value && Lookup(m, NAMES[10]) == m[10].value;
    assert Lookup(m, NAMES[11]) == m[11].value;
    assert Lookup(m, NAMES[12]) == m[12].value && Lookup(m, NAMES[13]) == m[13].value;
    assert Lookup(m, NAMES[14]) == m[14].value;
    assert Lookup(m, NAMES[15]) == m[15].value && Lookup(m, NAMES[16]) == m[16].value;
    assert Lookup(m, NAMES[17]) == m[17].value;
  }

  lemma StringsRead(s: seq<string>)
    ensures AsStrings(Array(Strings(s))) == s
  {
  }

  /** For every record, the reader gets the same field values and capability list back. */
  lemma RoundTrip(r: Record)
    ensures RecordOf(Print(Object(Members(r)))) == Some(r)
  {
    hide Members, Print, Read, FromMembers;
    ReadPrint(Object(Members(r)));
    FromMembersOf(r);
  }

  /** So different records never print alike. */
  lemma ToJsonInjective(a: Record, b: Record)
    requires Print(Object(Members(a))) == Print(Object(Members(b)))
    ensures a == b
  {
    RoundTrip(a);
    RoundTrip(b);
  }
}
