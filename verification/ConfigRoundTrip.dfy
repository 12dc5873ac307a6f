/** Exactly which configurations a JSON reader reads back from the printed text. */
module ConfigRoundTrip {
  import opened Options
  import opened Text
  import opened Json
  import opened ConfigPrinter

  // ------------------------------------------------------------------ what is read, as a configuration

  function ToStrings(items: Items): Option<seq<string>> {
    match items
    case NoItems => Some([])
    case Item(JString(s), tail) =>
      (match ToStrings(tail) case None => None case Some(strings) => Some([s] + strings))
    case _ => None
  }

  function ToValue(json: Json): Option<Value> {
    match json
    case JString(s) => Some(Str(s))
    case JBool(b) => Some(Flag(b))
    case JArray(items) =>
      (match ToStrings(items) case None => None case Some(strings) => Some(List(strings)))
    case _ => None
  }

  /** Of members with the same name, the last one counts. */
  function ToConfig(members: Members): Option<Config> {
    match members
    case NoMembers => Some(map[])
    case Member(name, json, tail) =>
      match (ToValue(json), ToConfig(tail))
      case (Some(value), Some(config)) => Some(map[name := value] + config)
      case _ => None
  }

  function ReadConfig(text: string): Option<Config> {
    match ReadText(text)
    case Some(JObject(members)) => ToConfig(members)
    case _ => None
  }

  // ------------------------------------------------------------------ clean configurations are read back

  predicate CleanValue(v: Value) {
    match v
    case Str(s) => IsClean(s)
    case Flag(_) => true
    case List(items) => forall s <- items :: IsClean(s)
  }

  /** No string has a quote, a backslash or a control character. */
  predicate CleanConfig(config: Config) {
    forall k <- config :: IsClean(k) && CleanValue(config[k])
  }

  lemma {:induction false} ReadStringBack(s: string, rest: string)
    requires IsClean(s)
    ensures ReadString(s + ['"'] + rest) == Some((s, rest))
  {
    var text := s + ['"'] + rest;
    if s == [] {
      assert text == ['"'] + rest;
    } else {
      ReadStringBack(s[1..], rest);
      assert s[0] in s && text[0] == s[0];
      assert text[1..] == s[1..] + ['"'] + rest && [s[0]] + s[1..] == s;
    }
  }

  lemma {:induction false} ReadQuotedBack(s: string, rest: string)
    requires IsClean(s)
    ensures ReadValue(Quoted(s) + rest) == Some((JString(s), rest))
  {
    ReadStringBack(s, rest);
    var text := Quoted(s) + rest;
    assert text[1..] == s + ['"'] + rest;
  }

  lemma {:induction false} PrintItemsFirst(items: seq<string>)
    requires items != []
    ensures PrintItems(items) == Quoted(items[0]) + if |items| == 1 then "" else ", " + PrintItems(items[1..])
  {
    hide Quoted;
    if |items| > 1 {
      var front, last := items[..|items| - 1], items[|items| - 1];
      PrintItemsFirst(front);
      assert front[1..] == items[1..][..|items| - 2];
      if |items| > 2 { Associate(", ", PrintItems(front[1..]) + ", ", Quoted(last)); }
    }
  }

  function ItemsOf(items: seq<string>): Items {
    if items == [] then NoItems else Item(JString(items[0]), ItemsOf(items[1..]))
  }

  lemma {:induction false} ReadItemsBack(items: seq<string>, rest: string)
    requires items != [] && forall s <- items :: IsClean(s)
    ensures ReadItems(PrintItems(items) + [']'] + rest) == Some((ItemsOf(items), rest))
  {
    hide Quoted, ReadValue, PrintItems, IsClean;
    var text := PrintItems(items) + [']'] + rest;
    PrintItemsFirst(items);
    if |items| == 1 {
      ReadQuotedBack(items[0], [']'] + rest);
      assert text == Quoted(items[0]) + ([']'] + rest);
    } else {
      var more := PrintItems(items[1..]) + [']'] + rest;
      ReadItemsBack(items[1..], rest);
      ReadQuotedBack(items[0], [','] + ([' '] + more));
      assert text == Quoted(items[0]) + ([','] + ([' '] + more));
      PrintItemsStart(items[1..], [']'] + rest);
      assert more == PrintItems(items[1..]) + ([']'] + rest);
      SkipOneSpace(more);
    }
  }

  lemma {:induction false} PrintItemsStart(items: seq<string>, rest: string)
    requires items != []
    ensures (PrintItems(items) + rest)[0] == '"'
  {
    PrintItemsFirst(items);
  }

  lemma {:induction false} SkipOneSpace(s: string)
    requires s != [] && !IsSpace(s[0])
    ensures SkipSpace([' '] + s) == s
  {
    assert ([' '] + s)[1..] == s;
  }

  function JsonOf(v: Value): Json {
    match v
    case Str(s) => JString(s)
    case Flag(b) => JBool(b)
    case List(items) => JArray(ItemsOf(items))
  }

  lemma {:induction false} ReadValueBack(v: Value, rest: string)
    requires CleanValue(v)
    ensures ReadValue(PrintValue(v) + rest) == Some((JsonOf(v), rest))
  {
    match v
    case Str(s) =>
      ReadQuotedBack(s, rest);
    case Flag(b) =>
      assert (PrintValue(v) + rest)[|PrintValue(v)|..] == rest;
    case List(items) =>
      ReadListBack(items, rest);
  }

  lemma {:induction false} ReadListBack(items: seq<string>, rest: string)
    requires forall s <- items :: IsClean(s)
    ensures ReadValue(PrintValue(List(items)) + rest) == Some((JArray(ItemsOf(items)), rest))
  {
    RegroupList(PrintItems(items), rest);
    if items == [] {
      PrintNoItems();
      ReadEmptyArray(rest);
    } else {
      hide PrintItems, IsClean, ReadItems, ReadValue;
      ReadItemsBack(items, rest);
      PrintItemsStart(items, [']'] + rest);
      Associate(PrintItems(items), [']'], rest);
      ReadArray(PrintItems(items) + [']'] + rest);
    }
  }

  lemma {:induction false} RegroupList(items: string, rest: string)
    ensures ['['] + items + [']'] + rest == ['['] + (items + [']'] + rest)
  {
  }

  lemma {:induction false} ReadEmptyArray(rest: string)
    ensures ReadValue(['['] + ("" + [']'] + rest)) == Some((JArray(NoItems), rest))
  {
    assert ("" + [']'] + rest)[1..] == rest && (['['] + ("" + [']'] + rest))[1..] == "" + [']'] + rest;
  }

  lemma {:induction false} ReadArray(body: string)
    requires body != [] && body[0] == '"' && ReadItems(body).Some?
    ensures ReadValue(['['] + body) == Some((JArray(ReadItems(body).value.0), ReadItems(body).value.1))
  {
    hide ReadItems;
    assert (['['] + body)[1..] == body;
  }

  lemma {:induction false} PrintNoItems()
    ensures PrintItems([]) == ""
  {
  }

  lemma {:induction false} PrintMembersFirst(config: Config, order: seq<string>)
    requires order != [] && forall k <- order :: k in config
    ensures PrintMembers(config, order) ==
              PrintMember(order[0], config[order[0]])
              + if |order| == 1 then "" else ",\n" + PrintMembers(config, order[1..])
  {
    PrintMembersLast(config, order);
    if |order| > 1 {
      var front, tail, last := order[..|order| - 1], order[1..], order[|order| - 1];
      var middle := front[1..];
      assert tail[..|tail| - 1] == middle;
      PrintMembersFirst(config, front);
      PrintMembersLast(config, tail);
      hide PrintMembers, PrintMember;
      var first, lastText := PrintMember(order[0], config[order[0]]), PrintMember(last, config[last]);
      assert PrintMembers(config, order) == PrintMembers(config, front) + ",\n" + lastText;
      if |order| > 2 {
        var text := PrintMembers(config, middle);
        assert PrintMembers(config, front) == first + (",\n" + text);
        assert PrintMembers(config, tail) == text + ",\n" + lastText;
        RegroupMembers(first, text, lastText);
      } else {
        assert PrintMembers(config, front) == first + "" == first;
        assert PrintMembers(config, tail) == "" + lastText == lastText;
        Associate(first, ",\n", lastText);
      }
    }
  }

  lemma {:induction false} PrintMembersLast(config: Config, order: seq<string>)
    requires order != [] && forall k <- order :: k in config
    ensures var n := |order| - 1;
            PrintMembers(config, order) ==
              (if n == 0 then "" else PrintMembers(config, order[..n]) + ",\n")
              + PrintMember(order[n], config[order[n]])
  {
    hide PrintMember;
  }

  lemma {:induction false} RegroupMembers(first: string, middle: string, last: string)
    ensures first + (",\n" + middle) + ",\n" + last == first + (",\n" + (middle + ",\n" + last))
  {
  }

  function MembersOf(config: Config, order: seq<string>): Members
    requires forall k <- order :: k in config
  {
    if order == [] then NoMembers
    else Member(order[0], JsonOf(config[order[0]]), MembersOf(config, order[1..]))
  }

  /** A printed member, from its name on. */
  function FromName(k: string, v: Value): string {
    Quoted(k) + ": " + PrintValue(v)
  }

  lemma {:induction false} PrintMemberFromName(k: string, v: Value)
    ensures PrintMember(k, v) == "  " + FromName(k, v) && FromName(k, v) != [] && FromName(k, v)[0] == '"'
  {
    Associate("  ", Quoted(k), ": ");
    Associate("  ", Quoted(k) + ": ", PrintValue(v));
    hide PrintValue;
  }

  lemma {:induction false} ReadNameBack(k: string, v: Value, rest: string)
    requires IsClean(k)
    ensures ReadName(FromName(k, v) + rest) == Some((k, PrintValue(v) + rest))
  {
    hide IsClean, ReadString, SkipSpace;
    RegroupName(k, PrintValue(v), rest);
    PrintValueStart(v);
    hide PrintValue;
    var after := PrintValue(v) + rest;
    assert after[0] == PrintValue(v)[0];
    ReadStringBack(k, [':'] + ([' '] + after));
    SkipPrefix([], [':'] + ([' '] + after));
    assert [] + ([':'] + ([' '] + after)) == [':'] + ([' '] + after);
    assert ([':'] + ([' '] + after))[1..] == [' '] + after;
    SkipOneSpace(after);
  }

  lemma {:induction false} RegroupName(k: string, v: string, rest: string)
    ensures Quoted(k) + ": " + v + rest == ['"'] + (k + ['"'] + ([':'] + ([' '] + (v + rest))))
  {
  }

  lemma {:induction false} PrintValueStart(v: Value)
    ensures PrintValue(v) != [] && !IsSpace(PrintValue(v)[0])
  {
    hide PrintItems;
  }

  lemma {:induction false} SkipPrefix(prefix: string, s: string)
    requires s != [] && !IsSpace(s[0]) && forall c <- prefix :: IsSpace(c)
    ensures SkipSpace(prefix + s) == s
  {
    if prefix == [] {
      assert prefix + s == s;
    } else {
      assert IsSpace(prefix[0]);
      SkipPrefix(prefix[1..], s);
      assert (prefix + s)[1..] == prefix[1..] + s;
    }
  }

  lemma {:induction false} ReadLastMember(k: string, v: Value, rest: string)
    requires IsClean(k) && CleanValue(v)
    ensures ReadMembers(FromName(k, v) + ("\n}" + rest)) == Some((Member(k, JsonOf(v), NoMembers), rest))
  {
    ReadNameBack(k, v, "\n}" + rest);
    ReadValueBack(v, "\n}" + rest);
    SkipToBrace(rest);
    hide FromName, PrintValue, ReadName, ReadValue, CleanValue, IsClean, SkipSpace, JsonOf;
    assert (['}'] + rest)[1..] == rest;
  }

  lemma {:induction false} ReadMoreMembers(k: string, v: Value, more: string, tail: Members, rest: string)
    requires IsClean(k) && CleanValue(v) && ReadMembers(SkipSpace(more)) == Some((tail, rest))
    ensures ReadMembers(FromName(k, v) + ([','] + more)) == Some((Member(k, JsonOf(v), tail), rest))
  {
    ReadNameBack(k, v, [','] + more);
    ReadValueBack(v, [','] + more);
    SkipPrefix([], [','] + more);
    assert [] + ([','] + more) == [','] + more && ([','] + more)[1..] == more;
    hide FromName, PrintValue, ReadName, ReadValue, CleanValue, IsClean, SkipSpace, JsonOf;
  }

  /** What follows the first member of an order. */
  function AfterFirst(config: Config, order: seq<string>): string
    requires order != [] && forall k <- order :: k in config
  {
    if |order| == 1 then "" else ",\n" + PrintMembers(config, order[1..])
  }

  lemma {:induction false} RegroupFirst(a: string, more: string, rest: string)
    ensures ['\n'] + ("  " + a + more) + rest == "\n  " + (a + (more + rest))
  {
  }

  lemma {:induction false} SkipToFirstName(config: Config, order: seq<string>, rest: string)
    requires order != [] && forall k <- order :: k in config
    ensures SkipSpace(['\n'] + PrintMembers(config, order) + rest) ==
              FromName(order[0], config[order[0]]) + (AfterFirst(config, order) + rest)
  {
    PrintMembersFirst(config, order);
    hide PrintMembers, SkipSpace, PrintMember, FromName;
    PrintMemberFromName(order[0], config[order[0]]);
    var first, more := FromName(order[0], config[order[0]]), AfterFirst(config, order);
    hide AfterFirst;
    RegroupFirst(first, more, rest);
    SkipPrefix("\n  ", first + (more + rest));
  }

  lemma {:induction false} RegroupAfter(more: string, rest: string)
    ensures ",\n" + more + ("\n}" + rest) == [','] + (['\n'] + more + ("\n}" + rest))
  {
  }

  lemma {:induction false} ReadMembersBack(config: Config, order: seq<string>, rest: string)
    requires CleanConfig(config) && order != [] && forall k <- order :: k in config
    ensures ReadMembers(FromName(order[0], config[order[0]]) + (AfterFirst(config, order) + ("\n}" + rest))) ==
              Some((MembersOf(config, order), rest))
  {
    var k, v := order[0], config[order[0]];
    assert k in order && order[1..] <= order[1..];
    assert IsClean(k) && CleanValue(v);
    hide ReadMembers, FromName, CleanConfig, PrintMembers;
    if |order| == 1 {
      ReadLastMember(k, v, rest);
      assert AfterFirst(config, order) + ("\n}" + rest) == "\n}" + rest;
    } else {
      ReadMembersBack(config, order[1..], rest);
      SkipToFirstName(config, order[1..], "\n}" + rest);
      RegroupAfter(PrintMembers(config, order[1..]), rest);
      ReadMoreMembers(k, v, ['\n'] + PrintMembers(config, order[1..]) + ("\n}" + rest),
                      MembersOf(config, order[1..]), rest);
    }
  }

  lemma {:induction false} SkipToBrace(rest: string)
    ensures SkipSpace("\n}" + rest) == ['}'] + rest
  {
    assert ("\n}" + rest)[1..] == ['}'] + rest;
  }

  lemma {:induction false} ReadPrintBack(config: Config, order: seq<string>)
    requires CleanConfig(config) && order != [] && forall k <- order :: k in config
    ensures ReadText(Print(config, order)) == Some(JObject(MembersOf(config, order)))
  {
    hide ReadMembers, FromName, AfterFirst, PrintMembers, PrintMember, MembersOf, CleanConfig, SkipSpace;
    SkipToFirstName(config, order, "\n}");
    PrintMemberFromName(order[0], config[order[0]]);
    ReadMembersBack(config, order, "");
    assert "\n}" + "" == "\n}";
    ReadObject(['\n'] + PrintMembers(config, order) + "\n}");
    RegroupText(PrintMembers(config, order));
  }

  lemma {:induction false} RegroupText(members: string)
    ensures "{\n" + members + "\n}" == ['{'] + (['\n'] + members + "\n}")
  {
  }

  lemma {:induction false} ReadObject(body: string)
    requires SkipSpace(body) != [] && SkipSpace(body)[0] == '"'
    requires ReadMembers(SkipSpace(body)).Some? && ReadMembers(SkipSpace(body)).value.1 == []
    ensures ReadText(['{'] + body) == Some(JObject(ReadMembers(SkipSpace(body)).value.0))
  {
    hide ReadMembers;
    assert (['{'] + body)[1..] == body;
  }

  lemma {:induction false} StringsBack(items: seq<string>)
    ensures ToStrings(ItemsOf(items)) == Some(items)
  {
    if items != [] {
      StringsBack(items[1..]);
      assert [items[0]] + items[1..] == items;
    }
  }

  lemma {:induction false} ValueBack(v: Value)
    ensures ToValue(JsonOf(v)) == Some(v)
  {
    if v.List? { StringsBack(v.items); }
  }

  function Restrict(config: Config, order: seq<string>): Config
    requires forall k <- order :: k in config
  {
    map k | k in order :: config[k]
  }

  lemma {:induction false} RestrictFirst(config: Config, order: seq<string>)
    requires order != [] && forall k <- order :: k in config
    ensures Restrict(config, order) == map[order[0] := config[order[0]]] + Restrict(config, order[1..])
  {
    assert forall k :: k in order <==> k == order[0] || k in order[1..];
  }

  lemma {:induction false} ConfigBack(config: Config, order: seq<string>)
    requires forall k <- order :: k in config
    ensures ToConfig(MembersOf(config, order)) == Some(Restrict(config, order))
  {
    if order != [] {
      hide ToValue, JsonOf, Restrict;
      ValueBack(config[order[0]]);
      RestrictFirst(config, order);
      ConfigBack(config, order[1..]);
    }
  }

  /** In every key order, the printed text of a clean configuration is read back as that configuration. */
  lemma {:induction false} CleanConfigRoundTrips(config: Config, order: seq<string>)
    requires IsOrder(config, order) && CleanConfig(config)
    ensures ReadConfig(Print(config, order)) == Some(config)
  {
    if order == [] {
      EmptyConfigRoundTrips(config);
    } else {
      ReadPrintBack(config, order);
      ConfigBack(config, order);
      assert Restrict(config, order) == config;
    }
  }

  lemma {:induction false} EmptyConfigRoundTrips(config: Config)
    ensures ReadConfig(Print(config, [])) == Some(map[])
  {
    var text := Print(config, []);
    assert text == "{\n\n}" && text[1..] == "\n\n}" && "\n\n}"[1..] == "\n}" && "\n}"[1..] == "}" && "}"[1..] == "";
  }

  // ------------------------------------------------------------------ and no others are

  function ValueWeight(v: Value): nat {
    match v
    case Str(s) => Weight(s)
    case Flag(_) => 0
    case List(items) => StringsWeight(items)
  }

  function StringsWeight(items: seq<string>): nat {
    if items == [] then 0 else StringsWeight(items[..|items| - 1]) + Weight(items[|items| - 1])
  }

  function ConfigWeight(config: Config, order: seq<string>): nat
    requires forall k <- order :: k in config
  {
    if order == [] then 0
    else
      var last := order[|order| - 1];
      ConfigWeight(config, order[..|order| - 1]) + (Weight(last) + ValueWeight(config[last]))
  }

  lemma {:induction false} QuotedWeight(s: string)
    ensures Weight(Quoted(s)) == Weight(s)
  {
    WeightAppend(['"'] + s, ['"']);
    WeightAppend(['"'], s);
  }

  lemma {:induction false} PrintItemsWeight(items: seq<string>)
    ensures Weight(PrintItems(items)) == StringsWeight(items)
  {
    hide Quoted;
    if |items| == 1 {
      QuotedWeight(items[0]);
      assert items[..0] == [];
    } else if |items| > 1 {
      var front, last := items[..|items| - 1], items[|items| - 1];
      PrintItemsWeight(front);
      QuotedWeight(last);
      WeightAppend(PrintItems(front) + ", ", Quoted(last));
      WeightAppend(PrintItems(front), ", ");
      LiteralWeights();
    }
  }

  /** Nothing the printer writes around the strings has weight. */
  lemma {:induction false} LiteralWeights()
    ensures Weight("  ") == Weight(": ") == Weight(", ") == Weight(",\n") == Weight("{\n") == Weight("\n}") == 0
    ensures Weight("true") == Weight("false") == Weight("") == 0
  {
    assert "true"[1..] == "rue" && "rue"[1..] == "ue" && "ue"[1..] == "e";
    assert "false"[1..] == "alse" && "alse"[1..] == "lse" && "lse"[1..] == "se" && "se"[1..] == "e";
  }

  lemma {:induction false} PrintValueWeight(v: Value)
    ensures Weight(PrintValue(v)) == ValueWeight(v)
  {
    match v
    case Str(s) => QuotedWeight(s);
    case Flag(b) => LiteralWeights();
    case List(items) =>
      PrintItemsWeight(items);
      WeightAppend(['['] + PrintItems(items), [']']);
      WeightAppend(['['], PrintItems(items));
  }

  lemma {:induction false} PrintMemberWeight(k: string, v: Value)
    ensures Weight(PrintMember(k, v)) == Weight(k) + ValueWeight(v)
  {
    hide PrintValue, Quoted, Weight;
    LiteralWeights();
    QuotedWeight(k);
    PrintValueWeight(v);
    WeightAppend("  " + Quoted(k) + ": ", PrintValue(v));
    WeightAppend("  " + Quoted(k), ": ");
    WeightAppend("  ", Quoted(k));
  }

  lemma {:induction false} PrintMembersWeight(config: Config, order: seq<string>)
    requires forall k <- order :: k in config
    ensures Weight(PrintMembers(config, order)) == ConfigWeight(config, order)
  {
    hide PrintMember, Weight, ValueWeight;
    LiteralWeights();
    if order != [] {
      var front, last := order[..|order| - 1], order[|order| - 1];
      PrintMemberWeight(last, config[last]);
      PrintMembersWeight(config, front);
      var head := if |order| == 1 then "" else PrintMembers(config, front) + ",\n";
      WeightAppend(head, PrintMember(last, config[last]));
      WeightAppend(PrintMembers(config, front), ",\n");
    }
  }

  lemma {:induction false} PrintWeight(config: Config, order: seq<string>)
    requires forall k <- order :: k in config
    ensures Weight(Print(config, order)) == ConfigWeight(config, order)
  {
    hide Weight, PrintMembers;
    LiteralWeights();
    PrintMembersWeight(config, order);
    WeightAppend("{\n" + PrintMembers(config, order), "\n}");
    WeightAppend("{\n", PrintMembers(config, order));
  }

  lemma {:induction false} StringsWeightFirst(items: seq<string>)
    requires items != []
    ensures StringsWeight(items) == Weight(items[0]) + StringsWeight(items[1..])
  {
    hide Weight;
    if |items| > 1 {
      StringsWeightFirst(items[..|items| - 1]);
      assert items[..|items| - 1][1..] == items[1..][..|items| - 2];
    }
  }

  lemma {:induction false} ToStringsWeight(items: Items)
    requires ToStrings(items).Some?
    ensures StringsWeight(ToStrings(items).value) == ItemsWeight(items)
    ensures CleanItems(items) ==> forall s <- ToStrings(items).value :: IsClean(s)
  {
    hide Weight, IsClean;
    if items.Item? {
      assert CleanJson(items.head) == IsClean(items.head.s);
      ToStringsWeight(items.tail);
      StringsWeightFirst(ToStrings(items).value);
      assert ToStrings(items).value[1..] == ToStrings(items.tail).value;
    }
  }

  lemma {:induction false} ToValueWeight(json: Json)
    requires ToValue(json).Some?
    ensures ValueWeight(ToValue(json).value) == JsonWeight(json)
    ensures CleanJson(json) ==> CleanValue(ToValue(json).value)
  {
    if json.JArray? { ToStringsWeight(json.items); }
  }

  lemma {:induction false} ConfigWeightAppend(config: Config, a: seq<string>, b: seq<string>)
    requires (forall k <- a :: k in config) && (forall k <- b :: k in config)
    ensures ConfigWeight(config, a + b) == ConfigWeight(config, a) + ConfigWeight(config, b)
  {
    hide Weight, ValueWeight;
    if b == [] {
      assert a + b == a;
    } else {
      ConfigWeightAppend(config, a, b[..|b| - 1]);
      assert (a + b)[..|a + b| - 1] == a + b[..|b| - 1];
    }
  }

  lemma {:induction false} ConfigWeightDepends(c: Config, d: Config, order: seq<string>)
    requires forall k <- order :: k in c && k in d && c[k] == d[k]
    ensures ConfigWeight(c, order) == ConfigWeight(d, order)
  {
    hide Weight, ValueWeight;
    if order != [] { ConfigWeightDepends(c, d, order[..|order| - 1]); }
  }

  predicate Distinct(order: seq<string>) {
    forall i, j | 0 <= i < j < |order| :: order[i] != order[j]
  }

  /** The weight of one key, taken out of its place in an order. */
  lemma {:induction false} ConfigWeightRemove(config: Config, order: seq<string>, i: nat)
    requires i < |order| && forall k <- order :: k in config
    ensures var rest := order[..i] + order[i + 1..];
            && (forall k <- rest :: k in config)
            && ConfigWeight(config, order) == Weight(order[i]) + ValueWeight(config[order[i]])
                  + ConfigWeight(config, rest)
  {
    hide Weight, ValueWeight;
    assert order == order[..i] + [order[i]] + order[i + 1..];
    ConfigWeightAppend(config, order[..i] + [order[i]], order[i + 1..]);
    ConfigWeightAppend(config, order[..i], [order[i]]);
    ConfigWeightAppend(config, order[..i], order[i + 1..]);
    assert [order[i]][..0] == [];
  }

  lemma {:induction false} WithoutKey(order: seq<string>, i: nat)
    requires Distinct(order) && i < |order|
    ensures var rest := order[..i] + order[i + 1..]; Distinct(rest) && forall k <- rest :: k in order && k != order[i]
  {
  }

  /** A configuration weighs no more than the members it was read from; each key stems from a member of its own. */
  lemma {:induction false} ToConfigWeight(members: Members, order: seq<string>)
    requires ToConfig(members).Some? && Distinct(order) && forall k <- order :: k in ToConfig(members).value
    ensures ConfigWeight(ToConfig(members).value, order) <= MembersWeight(members)
    decreases members
  {
    hide Weight, ValueWeight, ToValue;
    assert order != [] ==> order[0] in order;
    if members.Member? {
      var config, tail := ToConfig(members).value, ToConfig(members.tail).value;
      ToValueWeight(members.value);
      if members.name in order && members.name !in tail {
        var i :| 0 <= i < |order| && order[i] == members.name;
        var rest := order[..i] + order[i + 1..];
        ConfigWeightRemove(config, order, i);
        WithoutKey(order, i);
        hide Distinct, ConfigWeight;
        ConfigWeightDepends(config, tail, rest);
        ToConfigWeight(members.tail, rest);
      } else {
        ConfigWeightDepends(config, tail, order);
        ToConfigWeight(members.tail, order);
      }
    }
  }

  lemma {:induction false} ToConfigClean(members: Members)
    requires ToConfig(members).Some? && CleanMembers(members)
    ensures CleanConfig(ToConfig(members).value)
  {
    hide IsClean, CleanValue, ToValue, CleanJson;
    if members.Member? {
      ToValueWeight(members.value);
      ToConfigClean(members.tail);
    }
  }

  /** A configuration that is read back is clean: the text has no weight to lose to an escape. */
  lemma {:induction false} ReadBackIsClean(config: Config, order: seq<string>)
    requires IsOrder(config, order) && ReadConfig(Print(config, order)) == Some(config)
    ensures CleanConfig(config)
  {
    hide Print, ToConfig, CleanConfig, CleanMembers, ReadText, Weight;
    var text := Print(config, order);
    var members := ReadText(text).value.members;
    PrintWeight(config, order);
    ReadTextLoses(text);
    ToConfigWeight(members, order);
    ToConfigClean(members);
  }

  /**
   In every key order, the printed text is read back as the configuration exactly when no
   string of the configuration has a quote, a backslash or a control character.
   */
  lemma {:induction false} RoundTripsExactly(config: Config, order: seq<string>)
    requires IsOrder(config, order)
    ensures ReadConfig(Print(config, order)) == Some(config) <==> CleanConfig(config)
  {
    if CleanConfig(config) {
      CleanConfigRoundTrips(config, order);
    } else if ReadConfig(Print(config, order)) == Some(config) {
      ReadBackIsClean(config, order);
    }
  }
}
