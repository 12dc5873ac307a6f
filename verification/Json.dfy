/** A reader for JSON texts without numbers: sections 2 to 5 and 7 of RFC 8259. */
module Json {
  import opened Options
  import opened Text

  datatype Json = JString(s: string) | JBool(b: bool) | JNull | JArray(items: Items) | JObject(members: Members)

  datatype Items = NoItems | Item(head: Json, tail: Items)

  datatype Members = NoMembers | Member(name: string, value: Json, tail: Members)

  predicate IsSpace(c: char) {
    c in {' ', '\t', '\n', '\r'}
  }

  function SkipSpace(s: string): (t: string)
    ensures |t| <= |s|
  {
    if s != [] && IsSpace(s[0]) then SkipSpace(s[1..]) else s
  }

  // ------------------------------------------------------------------ strings

  predicate IsHex(c: char) {
    IsDigit(c) || 'a' <= c <= 'f' || 'A' <= c <= 'F'
  }

  function HexValue(c: char): nat
    requires IsHex(c)
  {
    if IsDigit(c) then DigitValue(c) else if 'a' <= c <= 'f' then c as nat - 87 else c as nat - 55
  }

  /** The character of `\uXXXX`; the halves of a surrogate pair are not characters. */
  function UnicodeEscape(s: string): Option<char>
    requires |s| == 4
  {
    if !(IsHex(s[0]) && IsHex(s[1]) && IsHex(s[2]) && IsHex(s[3])) then None
    else
      var code := 4096 * HexValue(s[0]) + 256 * HexValue(s[1]) + 16 * HexValue(s[2]) + HexValue(s[3]);
      if code < 0xD800 || 0xE000 <= code < 0x1_0000 then Some(code as char) else None
  }

  /** The character an escape stands for, and the length of the escape. */
  function ReadEscape(s: string): (r: Option<(char, nat)>)
    requires s != [] && s[0] == '\\'
    ensures r.Some? ==> 2 <= r.value.1 <= |s|
  {
    if |s| < 2 then None
    else
      match s[1]
      case '"' => Some(('"', 2))
      case '\\' => Some(('\\', 2))
      case '/' => Some(('/', 2))
      case 'b' => Some((8 as char, 2))
      case 'f' => Some((12 as char, 2))
      case 'n' => Some(('\n', 2))
      case 'r' => Some(('\r', 2))
      case 't' => Some(('\t', 2))
      case 'u' =>
        if |s| < 6 then None
        else
          var c := UnicodeEscape(s[2..6]);
          if c.Some? then Some((c.value, 6)) else None
      case _ => None
  }

  /** The rest of a string after its opening quote, and the text after its closing quote. */
  function ReadString(s: string): (r: Option<(string, string)>)
    ensures r.Some? ==> |r.value.1| < |s|
    decreases |s|
  {
    if s == [] then None
    else if s[0] == '"' then Some(("", s[1..]))
    else if s[0] < ' ' then None
    else if s[0] == '\\' then
      match ReadEscape(s)
      case None => None
      case Some((c, n)) => Prepend(c, ReadString(s[n..]))
    else Prepend(s[0], ReadString(s[1..]))
  }

  function Prepend(c: char, r: Option<(string, string)>): Option<(string, string)> {
    if r.Some? then Some(([c] + r.value.0, r.value.1)) else None
  }

  // ------------------------------------------------------------------ values

  function ReadValue(s: string): (r: Option<(Json, string)>)
    ensures r.Some? ==> |r.value.1| < |s|
    decreases |s|, 0
  {
    if s == [] then None
    else if s[0] == '"' then
      match ReadString(s[1..])
      case None => None
      case Some((text, rest)) => Some((JString(text), rest))
    else if s[0] == '[' then
      var t := SkipSpace(s[1..]);
      if t != [] && t[0] == ']' then Some((JArray(NoItems), t[1..]))
      else
        match ReadItems(t)
        case None => None
        case Some((items, rest)) => Some((JArray(items), rest))
    else if s[0] == '{' then
      var t := SkipSpace(s[1..]);
      if t != [] && t[0] == '}' then Some((JObject(NoMembers), t[1..]))
      else
        match ReadMembers(t)
        case None => None
        case Some((members, rest)) => Some((JObject(members), rest))
    else if "true" <= s then Some((JBool(true), s[4..]))
    else if "false" <= s then Some((JBool(false), s[5..]))
    else if "null" <= s then Some((JNull, s[4..]))
    else None
  }

  /** One or more values with commas between them, up to the closing bracket. */
  function ReadItems(s: string): (r: Option<(Items, string)>)
    ensures r.Some? ==> |r.value.1| < |s|
    decreases |s|, 1
  {
    match ReadValue(s)
    case None => None
    case Some((head, after)) =>
      var t := SkipSpace(after);
      if t == [] then None
      else if t[0] == ']' then Some((Item(head, NoItems), t[1..]))
      else if t[0] != ',' then None
      else
        match ReadItems(SkipSpace(t[1..]))
        case None => None
        case Some((tail, rest)) => Some((Item(head, tail), rest))
  }

  /** A quoted name and a colon, and where the value begins. */
  function ReadName(s: string): (r: Option<(string, string)>)
    ensures r.Some? ==> |r.value.1| < |s|
  {
    if s == [] || s[0] != '"' then None
    else
      match ReadString(s[1..])
      case None => None
      case Some((name, after)) =>
        var t := SkipSpace(after);
        if t == [] || t[0] != ':' then None else Some((name, SkipSpace(t[1..])))
  }

  /** One or more members with commas between them, up to the closing brace. */
  function ReadMembers(s: string): (r: Option<(Members, string)>)
    ensures r.Some? ==> |r.value.1| < |s|
    decreases |s|, 1
  {
    match ReadName(s)
    case None => None
    case Some((name, start)) =>
      match ReadValue(start)
      case None => None
      case Some((value, after)) =>
        var t := SkipSpace(after);
        if t == [] then None
        else if t[0] == '}' then Some((Member(name, value, NoMembers), t[1..]))
        else if t[0] != ',' then None
        else
          match ReadMembers(SkipSpace(t[1..]))
          case None => None
          case Some((tail, rest)) => Some((Member(name, value, tail), rest))
  }

  /** A whole text: one value with nothing but white space around it. */
  function ReadText(s: string): Option<Json> {
    match ReadValue(SkipSpace(s))
    case None => None
    case Some((json, rest)) => if SkipSpace(rest) == [] then Some(json) else None
  }

  // ------------------------------------------------------------------ what reading cannot gain

  /** A character that a string can hold without an escape. */
  predicate IsPlain(c: char) {
    c != '"' && c != '\\' && c >= ' '
  }

  predicate IsClean(s: string) {
    forall c <- s :: IsPlain(c)
  }

  predicate CleanJson(j: Json) {
    match j
    case JString(s) => IsClean(s)
    case JArray(items) => CleanItems(items)
    case JObject(members) => CleanMembers(members)
    case _ => true
  }

  predicate CleanItems(items: Items) {
    items.NoItems? || (CleanJson(items.head) && CleanItems(items.tail))
  }

  predicate CleanMembers(members: Members) {
    members.NoMembers? || (IsClean(members.name) && CleanJson(members.value) && CleanMembers(members.tail))
  }

  /**
   The weight of a text: its backslashes and its fives.  Every escape weighs more than the
   character it stands for, since the escape of a backslash by its code point has a five in
   it; and outside of strings the reader accepts neither.
   */
  function Weight(s: string): nat {
    if s == [] then 0 else (if s[0] in {'\\', '5'} then 1 else 0) + Weight(s[1..])
  }

  function JsonWeight(j: Json): nat {
    match j
    case JString(s) => Weight(s)
    case JArray(items) => ItemsWeight(items)
    case JObject(members) => MembersWeight(members)
    case _ => 0
  }

  function ItemsWeight(items: Items): nat {
    if items.NoItems? then 0 else JsonWeight(items.head) + ItemsWeight(items.tail)
  }

  function MembersWeight(members: Members): nat {
    if members.NoMembers? then 0
    else Weight(members.name) + JsonWeight(members.value) + MembersWeight(members.tail)
  }

  lemma {:induction false} WeightAppend(a: string, b: string)
    ensures Weight(a + b) == Weight(a) + Weight(b)
  {
    if a == [] {
      assert a + b == b;
    } else {
      WeightAppend(a[1..], b);
      assert (a + b)[1..] == a[1..] + b;
    }
  }

  lemma {:induction false} WeightSplit(s: string, n: nat)
    requires n <= |s|
    ensures Weight(s) == Weight(s[..n]) + Weight(s[n..])
  {
    WeightAppend(s[..n], s[n..]);
    assert s == s[..n] + s[n..];
  }

  lemma {:induction false} SkipSpaceWeight(s: string)
    ensures Weight(SkipSpace(s)) <= Weight(s)
  {
    if s != [] && IsSpace(s[0]) { SkipSpaceWeight(s[1..]); }
  }

  /** Reading loses weight, or what was read needed no escape. */
  ghost predicate Loses(before: nat, read: nat, rest: nat, clean: bool) {
    read + rest < before || (read + rest == before && clean)
  }

  lemma {:induction false} EscapeLoses(s: string)
    requires s != [] && s[0] == '\\' && ReadEscape(s).Some?
    ensures Weight([ReadEscape(s).value.0]) + Weight(s[ReadEscape(s).value.1..]) < Weight(s)
  {
    var (c, n) := ReadEscape(s).value;
    WeightSplit(s, n);
    assert s[..n][0] == '\\' && s[..n][1..] == s[1..n];
    if n == 6 {
      assert UnicodeEscape(s[2..6]) == Some(c);
      if c == '\\' || c == '5' {
        UnicodeEscapeHasFive(s[2..6]);
        WeightSplit(s[1..6], 1);
        assert s[1..6][1..] == s[2..6];
      }
    } else {
      assert Weight(s[..2]) == 1 + Weight(s[1..2]) && Weight(s[1..2]) == (if s[1] in {'\\', '5'} then 1 else 0) by {
        assert s[1..2][1..] == [];
      }
    }
  }

  lemma {:induction false} UnicodeEscapeHasFive(s: string)
    requires |s| == 4 && UnicodeEscape(s) in {Some('\\'), Some('5')}
    ensures Weight(s) >= 1
  {
    assert s[2] == '5' || s[3] == '5';
    WeightSplit(s, 2);
    WeightSplit(s[2..], 1);
    assert s[2..][..1] == [s[2]] && s[2..][1..] == [s[3]];
  }

  lemma {:induction false} ReadStringLoses(s: string)
    requires ReadString(s).Some?
    ensures Loses(Weight(s), Weight(ReadString(s).value.0), Weight(ReadString(s).value.1),
                  IsClean(ReadString(s).value.0))
    decreases |s|
  {
    if s[0] == '"' {
    } else if s[0] == '\\' {
      var (c, n) := ReadEscape(s).value;
      EscapeLoses(s);
      ReadStringLoses(s[n..]);
      WeightAppend([c], ReadString(s[n..]).value.0);
    } else {
      ReadStringLoses(s[1..]);
      WeightAppend([s[0]], ReadString(s[1..]).value.0);
      assert Weight([s[0]]) == if s[0] in {'\\', '5'} then 1 else 0;
    }
  }

  lemma {:induction false} TailWeight(s: string, n: nat)
    requires n <= |s|
    ensures Weight(s[n..]) <= Weight(s)
  {
    WeightSplit(s, n);
  }

  lemma {:induction false} ReadValueLoses(s: string)
    requires ReadValue(s).Some?
    ensures var (json, rest) := ReadValue(s).value; Loses(Weight(s), JsonWeight(json), Weight(rest), CleanJson(json))
    decreases |s|, 0
  {
    TailWeight(s, 1);
    SkipSpaceWeight(s[1..]);
    var t := SkipSpace(s[1..]);
    if s[0] == '"' {
      ReadStringLoses(s[1..]);
    } else if s[0] == '[' {
      if t != [] && t[0] == ']' { TailWeight(t, 1); } else { ReadItemsLoses(t); }
    } else if s[0] == '{' {
      if t != [] && t[0] == '}' { TailWeight(t, 1); } else { ReadMembersLoses(t); }
    } else {
      TailWeight(s, if "false" <= s then 5 else 4);
    }
  }

  lemma {:induction false} ReadItemsLoses(s: string)
    requires ReadItems(s).Some?
    ensures var (items, rest) := ReadItems(s).value;
            Loses(Weight(s), ItemsWeight(items), Weight(rest), CleanItems(items))
    decreases |s|, 1
  {
    ReadValueLoses(s);
    var after := ReadValue(s).value.1;
    SkipSpaceWeight(after);
    var t := SkipSpace(after);
    TailWeight(t, 1);
    if t[0] == ',' {
      SkipSpaceWeight(t[1..]);
      ReadItemsLoses(SkipSpace(t[1..]));
    }
  }

  lemma {:induction false} ReadNameLoses(s: string)
    requires ReadName(s).Some?
    ensures var (name, rest) := ReadName(s).value; Loses(Weight(s), Weight(name), Weight(rest), IsClean(name))
  {
    TailWeight(s, 1);
    ReadStringLoses(s[1..]);
    var after := ReadString(s[1..]).value.1;
    SkipSpaceWeight(after);
    TailWeight(SkipSpace(after), 1);
    SkipSpaceWeight(SkipSpace(after)[1..]);
  }

  lemma {:induction false} ReadMembersLoses(s: string)
    requires ReadMembers(s).Some?
    ensures var (members, rest) := ReadMembers(s).value;
            Loses(Weight(s), MembersWeight(members), Weight(rest), CleanMembers(members))
    decreases |s|, 1
  {
    ReadNameLoses(s);
    var start := ReadName(s).value.1;
    ReadValueLoses(start);
    var after := ReadValue(start).value.1;
    SkipSpaceWeight(after);
    var t := SkipSpace(after);
    TailWeight(t, 1);
    if t[0] == ',' {
      SkipSpaceWeight(t[1..]);
      ReadMembersLoses(SkipSpace(t[1..]));
    }
  }

  /** A text that is read weighs at least what was read, and no more only if what was read is clean. */
  lemma {:induction false} ReadTextLoses(s: string)
    requires ReadText(s).Some?
    ensures Loses(Weight(s), JsonWeight(ReadText(s).value), 0, CleanJson(ReadText(s).value))
  {
    SkipSpaceWeight(s);
    ReadValueLoses(SkipSpace(s));
  }
}
