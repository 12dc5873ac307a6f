/** The hand-written printer of the tailscaled configuration. */
module ConfigPrinter {
  import opened Options
  import opened Text
  import opened Json

  /** The three kinds of value that a configuration holds. */
  datatype Value = Str(s: string) | Flag(b: bool) | List(items: seq<string>)

  type Config = map<string, Value>

  /** A key order in which a map may be iterated. */
  predicate IsOrder(config: Config, order: seq<string>) {
    && (forall i, j | 0 <= i < j < |order| :: order[i] != order[j])
    && (forall k <- order :: k in config)
    && (forall k <- config :: k in order)
  }

  // ------------------------------------------------------------------ printing

  function Quoted(s: string): string {
    ['"'] + s + ['"']
  }

  function PrintItems(items: seq<string>): string {
    if items == [] then ""
    else if |items| == 1 then Quoted(items[0])
    else PrintItems(items[..|items| - 1]) + ", " + Quoted(items[|items| - 1])
  }

  function PrintValue(v: Value): string {
    match v
    case Str(s) => Quoted(s)
    case Flag(b) => if b then "true" else "false"
    case List(items) => ['['] + PrintItems(items) + [']']
  }

  function PrintMember(k: string, v: Value): string {
    "  " + Quoted(k) + ": " + PrintValue(v)
  }

  function PrintMembers(config: Config, order: seq<string>): string
    requires forall k <- order :: k in config
  {
    if order == [] then ""
    else
      var last := order[|order| - 1];
      (if |order| == 1 then "" else PrintMembers(config, order[..|order| - 1]) + ",\n")
      + PrintMember(last, config[last])
  }

  function Print(config: Config, order: seq<string>): string
    requires forall k <- order :: k in config
  {
    "{\n" + PrintMembers(config, order) + "\n}"
  }

  lemma {:induction false} Associate(a: string, b: string, c: string)
    ensures a + (b + c) == a + b + c
  {
  }

  lemma {:induction false} PrintItemsExtends(items: seq<string>, i: nat)
    requires i < |items|
    ensures PrintItems(items[..i + 1]) == (if i == 0 then "" else PrintItems(items[..i]) + ", ") + Quoted(items[i])
  {
    assert items[..i + 1][..i] == items[..i];
  }

  lemma {:induction false} PrintMembersExtends(config: Config, order: seq<string>, n: nat)
    requires n < |order| && forall k <- order :: k in config
    ensures PrintMembers(config, order[..n + 1]) ==
              (if n == 0 then "" else PrintMembers(config, order[..n]) + ",\n")
              + PrintMember(order[n], config[order[n]])
  {
    hide PrintMember;
    assert order[..n + 1][..n] == order[..n];
  }

  /** The loop over a list of strings. */
  method AppendItems(start: string, items: seq<string>) returns (result: string)
    ensures result == start + PrintItems(items)
  {
    hide Quoted;
    result := start;
    for i := 0 to |items|
      invariant result == start + PrintItems(items[..i])
    {
      PrintItemsExtends(items, i);
      hide PrintItems;
      if i > 0 {
        result := result + ", ";
        Associate(start, PrintItems(items[..i]), ", ");
        Associate(start, PrintItems(items[..i]) + ", ", Quoted(items[i]));
      }
      result := result + Quoted(items[i]);
    }
    assert items[..|items|] == items;
  }

  /** The switch on the type of one value. */
  method AppendMember(start: string, k: string, v: Value) returns (result: string)
    ensures result == start + PrintMember(k, v)
  {
    hide PrintItems;
    match v {
      case Str(s) =>
        result := start + ("  " + Quoted(k) + ": " + Quoted(s));
      case Flag(b) =>
        result := start + ("  " + Quoted(k) + ": " + if b then "true" else "false");
      case List(items) =>
        var head := "  " + Quoted(k) + ": " + ['['];
        result := AppendItems(start + head, items);
        result := result + [']'];
        assert head + PrintItems(items) + [']'] == PrintMember(k, v);
    }
  }

  method MarshalConfig(config: Config, order: seq<string>) returns (result: string)
    requires IsOrder(config, order)
    ensures result == Print(config, order)
  {
    hide PrintMember;
    result := "{\n";
    var first := true;
    for n := 0 to |order|
      invariant first <==> n == 0
      invariant result == "{\n" + PrintMembers(config, order[..n])
    {
      var k := order[n];
      PrintMembersExtends(config, order, n);
      hide PrintMembers;
      if !first {
        result := result + ",\n";
        Associate("{\n", PrintMembers(config, order[..n]), ",\n");
        Associate("{\n", PrintMembers(config, order[..n]) + ",\n", PrintMember(k, config[k]));
      }
      first := false;
      result := AppendMember(result, k, config[k]);
    }
    assert order[..|order|] == order;
    result := result + "\n}";
  }
}
