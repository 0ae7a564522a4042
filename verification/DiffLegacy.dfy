/** The migration gate: configuration trees flattened to maps from paths to
    scalars, the start-up entry put at the head of the list of service data
    objects, and the comparison of two maps. */
module DiffLegacy {
  import opened Values
  import opened Scalars

  datatype Node =
    | ScalarNode(scalar: Scalar)
    | MappingNode(items: seq<Item>)
    | SequenceNode(elements: seq<Node>)
    | OtherNode

  datatype Item = Item(key: Node, child: Node)

  type SemanticMap = map<string, Scalar>

  datatype GateError = ScalarRoot | NonScalarKey | UnsupportedNode

  type Flattened = Result<SemanticMap, GateError>

  // ---------- Flattening ----------

  function ChildPrefix(prefix: string, key: string): string {
    if prefix == "" then key else prefix + ("." + key)
  }

  function IndexPrefix(prefix: string, index: nat): string {
    prefix + ("[" + Decimal.Print(index) + "]")
  }

  function Flatten(node: Node, prefix: string): Flattened {
    match node
    case ScalarNode(scalar) => if prefix == "" then Err(ScalarRoot) else Ok(map[prefix := scalar])
    case MappingNode(items) => FlattenItems(items, prefix)
    case SequenceNode(elements) => FlattenElements(elements, prefix, 0)
    case OtherNode => Err(UnsupportedNode)
  }

  function FlattenItems(items: seq<Item>, prefix: string): Flattened {
    if items == [] then Ok(map[]) else Merge(FlattenItem(items[0], prefix), FlattenItems(items[1..], prefix))
  }

  function FlattenItem(item: Item, prefix: string): Flattened {
    if !item.key.ScalarNode? then Err(NonScalarKey)
    else Flatten(item.child, ChildPrefix(prefix, item.key.scalar.text))
  }

  function FlattenElements(elements: seq<Node>, prefix: string, index: nat): Flattened {
    if elements == [] then Ok(map[])
    else
      Merge(Flatten(elements[0], IndexPrefix(prefix, index)), FlattenElements(elements[1..], prefix, index + 1))
  }

  /** Later entries replace earlier ones; the first error counts. */
  function Merge(first: Flattened, second: Flattened): Flattened {
    if first.Err? then first else if second.Err? then second else Ok(first.value + second.value)
  }

  // ---------- The flattened map does not depend on the prefix ----------

  /** The two maps agree below their prefixes. */
  ghost predicate Rebased(p: string, m: SemanticMap, q: string, n: SemanticMap) {
    && (forall k | k in m :: p <= k)
    && (forall k | k in n :: q <= k)
    && (forall x: string :: p + x in m <==> q + x in n)
    && (forall x: string | p + x in m :: m[p + x] == n[q + x])
  }

  ghost predicate SameBelow(p: string, m: Flattened, q: string, n: Flattened) {
    if m.Ok? then n.Ok? && Rebased(p, m.value, q, n.value) else n == m
  }

  lemma RebasedBelow(p: string, q: string, s: string, m: SemanticMap, n: SemanticMap)
    requires Rebased(p + s, m, q + s, n)
    ensures Rebased(p, m, q, n)
  {
    forall x: string
      ensures p + x in m <==> q + x in n
      ensures p + x in m ==> m[p + x] == n[q + x]
    {
      if p + x in m || q + x in n {
        assert s <= x by {
          assert p + x in m ==> (p + s <= p + x && (p + x)[|p|..] == x && (p + s)[|p|..] == s);
          assert q + x in n ==> (q + s <= q + x && (q + x)[|q|..] == x && (q + s)[|q|..] == s);
        }
        var y := x[|s|..];
        assert p + x == (p + s) + y && q + x == (q + s) + y;
      }
    }
  }

  lemma MergedBelow(p: string, q: string, m1: Flattened, m2: Flattened,
                    n1: Flattened, n2: Flattened)
    requires SameBelow(p, m1, q, n1) && SameBelow(p, m2, q, n2)
    ensures SameBelow(p, Merge(m1, m2), q, Merge(n1, n2))
  {
  }

  lemma ChildBelow(p: string, q: string, s: string, m: Flattened, n: Flattened)
    requires SameBelow(p + s, m, q + s, n)
    ensures SameBelow(p, m, q, n)
  {
    if m.Ok? {
      RebasedBelow(p, q, s, m.value, n.value);
    }
  }

  lemma {:induction false} FlattenBelow(node: Node, p: string, q: string)
    requires p != "" && q != ""
    ensures SameBelow(p, Flatten(node, p), q, Flatten(node, q))
    decreases node
  {
    match node
    case ScalarNode(scalar) =>
      forall x: string
        ensures p + x == p <==> x == ""
        ensures q + x == q <==> x == ""
      {
        assert p + x == p ==> |x| == 0;
        assert q + x == q ==> |x| == 0;
      }
    case MappingNode(items) => ItemsBelow(items, p, q);
    case SequenceNode(elements) => ElementsBelow(elements, p, q, 0);
    case OtherNode =>
  }

  lemma {:induction false} ItemsBelow(items: seq<Item>, p: string, q: string)
    requires p != "" && q != ""
    ensures SameBelow(p, FlattenItems(items, p), q, FlattenItems(items, q))
    decreases items
  {
    if items != [] {
      ItemBelow(items[0], p, q);
      ItemsBelow(items[1..], p, q);
      MergedBelow(p, q, FlattenItem(items[0], p), FlattenItems(items[1..], p),
                  FlattenItem(items[0], q), FlattenItems(items[1..], q));
    }
  }

  lemma {:induction false} ItemBelow(item: Item, p: string, q: string)
    requires p != "" && q != ""
    ensures SameBelow(p, FlattenItem(item, p), q, FlattenItem(item, q))
    decreases item
  {
    if item.key.ScalarNode? {
      var s := "." + item.key.scalar.text;
      FlattenBelow(item.child, p + s, q + s);
      ChildBelow(p, q, s, Flatten(item.child, p + s), Flatten(item.child, q + s));
    }
  }

  lemma {:induction false} ElementsBelow(elements: seq<Node>, p: string, q: string, index: nat)
    requires p != "" && q != ""
    ensures SameBelow(p, FlattenElements(elements, p, index), q, FlattenElements(elements, q, index))
    decreases elements
  {
    if elements != [] {
      var s := "[" + Decimal.Print(index) + "]";
      FlattenBelow(elements[0], p + s, q + s);
      ChildBelow(p, q, s, Flatten(elements[0], p + s), Flatten(elements[0], q + s));
      ElementsBelow(elements[1..], p, q, index + 1);
      MergedBelow(p, q, Flatten(elements[0], p + s), FlattenElements(elements[1..], p, index + 1),
                  Flatten(elements[0], q + s), FlattenElements(elements[1..], q, index + 1));
    }
  }

  // ---------- Paths into the list of service data objects ----------

  /** The path `rest` below entry `index`. */
  function EntryKey(index: nat, rest: string): string {
    IndexPrefix("sdo", index) + rest
  }

  datatype Path = Elsewhere | Entry(index: nat, rest: string)

  function Split(key: string): Path {
    if |key| < 4 || key[..4] != "sdo[" then Elsewhere
    else
      var run := Decimal.DigitRun(key[4..]);
      if run == 0 || 4 + run == |key| || key[4 + run] != ']' then Elsewhere
      else
        assert key[4..][..run] == key[4..4 + run];
        Entry(Decimal.Parse(key[4..4 + run]), key[5 + run..])
  }

  /** `.` matches no newline, and `$` also matches before a last newline. */
  predicate FitsLine(rest: string) {
    rest == "" || '\n' !in rest[..|rest| - 1]
  }

  function Line(rest: string): string {
    if rest != "" && rest[|rest| - 1] == '\n' then rest[..|rest| - 1] else rest
  }

  function ShiftKey(key: string): string {
    var path := Split(key);
    if path.Entry? && FitsLine(path.rest) then EntryKey(path.index + 1, Line(path.rest)) else key
  }

  lemma SplitEntry(index: nat, rest: string)
    ensures Split(EntryKey(index, rest)) == Entry(index, rest)
    ensures "sdo[" <= EntryKey(index, rest)
  {
    var number := Decimal.Print(index);
    Decimal.RoundTrip(index);
    assert EntryKey(index, rest) == "sdo[" + (number + ("]" + rest)) by { hide Decimal.Print; }
    hide *;
    SplitNumber(number, rest);
  }

  lemma SplitNumber(number: string, rest: string)
    requires number != "" && Decimal.AllDigits(number)
    ensures Split("sdo[" + (number + ("]" + rest))) == Entry(Decimal.Parse(number), rest)
  {
    var tail := number + ("]" + rest);
    var key := "sdo[" + tail;
    Decimal.RunOfNumber(number, "]" + rest);
    hide Decimal.DigitRun, Decimal.Parse;
    assert key[..4] == "sdo[" && key[4..] == tail;
    assert key[4..4 + |number|] == number;
    assert key[5 + |number|..] == rest;
  }

  lemma ShiftEntry(index: nat, rest: string)
    requires '\n' !in rest
    ensures ShiftKey(EntryKey(index, rest)) == EntryKey(index + 1, rest)
  {
    SplitEntry(index, rest);
  }

  // ---------- Moving the list one place up ----------

  ghost predicate IsEntry(key: string, from: nat) {
    var path := Split(key);
    path.Entry? && path.index >= from && key == EntryKey(path.index, path.rest)
  }

  /** The maps hold the same entries, from number `from` on, with numbers one apart. */
  ghost predicate OneApart(from: nat, m: SemanticMap, n: SemanticMap) {
    && (forall k | k in m :: IsEntry(k, from))
    && (forall k | k in n :: IsEntry(k, from + 1))
    && (forall j: nat, x: string :: EntryKey(j, x) in m <==> EntryKey(j + 1, x) in n)
    && (forall j: nat, x: string | EntryKey(j, x) in m :: m[EntryKey(j, x)] == n[EntryKey(j + 1, x)])
  }

  lemma EntryOneApart(index: nat, m: SemanticMap, n: SemanticMap)
    requires Rebased(IndexPrefix("sdo", index), m, IndexPrefix("sdo", index + 1), n)
    ensures OneApart(index, m, n)
  {
    hide IndexPrefix, Split;
    BelowEntry(index, m);
    BelowEntry(index + 1, n);
    forall j: nat, x: string
      ensures EntryKey(j, x) in m <==> EntryKey(j + 1, x) in n
      ensures EntryKey(j, x) in m ==> m[EntryKey(j, x)] == n[EntryKey(j + 1, x)]
    {
      SplitEntry(j, x);
      SplitEntry(j + 1, x);
    }
  }

  lemma BelowEntry(index: nat, m: SemanticMap)
    requires forall k | k in m :: IndexPrefix("sdo", index) <= k
    ensures forall k | k in m :: IsEntry(k, index) && Split(k).index == index
  {
    forall k | k in m
      ensures IsEntry(k, index) && Split(k).index == index
    {
      var p := IndexPrefix("sdo", index);
      assert k == p + k[|p|..];
      SplitEntry(index, k[|p|..]);
    }
  }

  lemma {:induction false} ListOneApart(elements: seq<Node>, from: nat)
    ensures var m, n := FlattenElements(elements, "sdo", from), FlattenElements(elements, "sdo", from + 1);
            if m.Ok? then n.Ok? && OneApart(from, m.value, n.value) else n == m
    decreases elements
  {
    if elements != [] {
      hide OneApart, Rebased, IndexPrefix;
      var p, q := IndexPrefix("sdo", from), IndexPrefix("sdo", from + 1);
      assert p != "" && q != "" by { EntriesAreSomewhere(from); }
      FlattenBelow(elements[0], p, q);
      ListOneApart(elements[1..], from + 1);
      var m, n := Flatten(elements[0], p), Flatten(elements[0], q);
      if m.Ok? {
        EntryOneApart(from, m.value, n.value);
        var m', n' := FlattenElements(elements[1..], "sdo", from + 1), FlattenElements(elements[1..], "sdo", from + 2);
        if m'.Ok? {
          MergedOneApart(from, m.value, n.value, m'.value, n'.value);
        }
      }
    } else {
      hide Flatten;
    }
  }

  lemma EntriesAreSomewhere(index: nat)
    ensures IndexPrefix("sdo", index) != "" && IndexPrefix("sdo", index + 1) != ""
  {
  }

  lemma MergedOneApart(from: nat, m1: SemanticMap, n1: SemanticMap, m2: SemanticMap, n2: SemanticMap)
    requires OneApart(from, m1, n1) && OneApart(from + 1, m2, n2)
    ensures OneApart(from, m1 + m2, n1 + n2)
  {
    hide Split, EntryKey;
  }

  // ---------- The whole tree ----------

  predicate AboutList(key: string) {
    "sdo[" <= key
  }

  predicate Plain(m: SemanticMap) {
    forall k | k in m :: !AboutList(k)
  }

  predicate IsList(item: Item) {
    item.key.ScalarNode? && item.key.scalar.text == "sdo"
  }

  /** A root item whose paths cannot be taken for entries of the list. */
  predicate Unrelated(item: Item) {
    !IsList(item) && (FlattenItem(item, "").Ok? ==> Plain(FlattenItem(item, "").value))
  }

  /** At most one root item is named `sdo`, and it holds a list. */
  predicate WellFormed(items: seq<Item>) {
    items != [] ==>
      if IsList(items[0]) then items[0].child.SequenceNode? && forall i | 1 <= i < |items| :: Unrelated(items[i])
      else Unrelated(items[0]) && WellFormed(items[1..])
  }

  function PlainScalar(text: string): Node {
    ScalarNode(Scalar(StringKind, Text(text), text))
  }

  /** The tree with a new first entry in its list; the list is made if need be. */
  function InsertFirst(items: seq<Item>, entry: Node): seq<Item>
    requires WellFormed(items)
  {
    if items == [] then [Item(PlainScalar("sdo"), SequenceNode([entry]))]
    else if IsList(items[0]) then [Item(items[0].key, SequenceNode([entry] + items[0].child.elements))] + items[1..]
    else [items[0]] + InsertFirst(items[1..], entry)
  }

  function IntScalar(n: int, text: string): Scalar {
    Scalar(IntKind, Integer(n), text)
  }

  /** The approved start-up entry 0x10F1:02 = 250. */
  function SyncTolerance(valueType: string): Node {
    MappingNode([
      Item(PlainScalar("index"), ScalarNode(IntScalar(0x10F1, "0x10f1"))),
      Item(PlainScalar("sub_index"), ScalarNode(IntScalar(2, "2"))),
      Item(PlainScalar("type"), ScalarNode(Scalar(StringKind, Text(valueType), valueType))),
      Item(PlainScalar("value"), ScalarNode(IntScalar(250, "250")))])
  }

  function Head(valueType: string): SemanticMap {
    map[
      "sdo[0].index" := IntScalar(0x10F1, "0x10f1"),
      "sdo[0].sub_index" := IntScalar(2, "2"),
      "sdo[0].type" := Scalar(StringKind, Text(valueType), valueType),
      "sdo[0].value" := IntScalar(250, "250")]
  }

  lemma HeadIsFirstEntry(valueType: string)
    ensures Flatten(SyncTolerance(valueType), IndexPrefix("sdo", 0)) == Ok(Head(valueType))
  {
    var p := IndexPrefix("sdo", 0);
    var items := SyncTolerance(valueType).items;
    assert FlattenItems(items[4..], p) == Ok(map[]);
    LastItem(items, 3, p);
    LastItem(items, 2, p);
    LastItem(items, 1, p);
    LastItem(items, 0, p);
    assert items[0..] == items;
    HeadKeys(valueType);
    hide *;
  }

  lemma HeadKeys(valueType: string)
    ensures var p := IndexPrefix("sdo", 0);
            Head(valueType) ==
              map[p + ("." + "index") := IntScalar(0x10F1, "0x10f1")] +
              (map[p + ("." + "sub_index") := IntScalar(2, "2")] +
               (map[p + ("." + "type") := Scalar(StringKind, Text(valueType), valueType)] +
                (map[p + ("." + "value") := IntScalar(250, "250")] + map[])))
  {
    var p := IndexPrefix("sdo", 0);
    assert p == "sdo[0]";
    assert p + ("." + "index") == "sdo[0].index" && p + ("." + "sub_index") == "sdo[0].sub_index";
    assert p + ("." + "type") == "sdo[0].type" && p + ("." + "value") == "sdo[0].value";
    hide *;
  }

  lemma LastItem(items: seq<Item>, i: nat, p: string)
    requires i < |items| && p != "" && items[i].key.ScalarNode? && items[i].child.ScalarNode?
    requires FlattenItems(items[i + 1..], p).Ok?
    ensures FlattenItems(items[i..], p) ==
            Ok(map[p + ("." + items[i].key.scalar.text) := items[i].child.scalar] +
               FlattenItems(items[i + 1..], p).value)
  {
    assert items[i..][0] == items[i] && items[i..][1..] == items[i + 1..];
    assert Flatten(items[i].child, ChildPrefix(p, items[i].key.scalar.text)) ==
           Ok(map[p + ("." + items[i].key.scalar.text) := items[i].child.scalar]);
    assert FlattenItem(items[i], p) == Ok(map[p + ("." + items[i].key.scalar.text) := items[i].child.scalar]);
  }

  /** `n` is `m` with its entries moved up and `first` as entry 0. */
  ghost predicate Lifted(m: SemanticMap, n: SemanticMap, first: SemanticMap) {
    && (forall k | k in m && AboutList(k) :: IsEntry(k, 0))
    && (forall k | k in n && AboutList(k) :: IsEntry(k, 0))
    && (forall k: string | !AboutList(k) :: k in m <==> k in n)
    && (forall k | k in m && !AboutList(k) :: m[k] == n[k])
    && (forall j: nat, x: string :: EntryKey(j, x) in m <==> EntryKey(j + 1, x) in n)
    && (forall j: nat, x: string | EntryKey(j, x) in m :: m[EntryKey(j, x)] == n[EntryKey(j + 1, x)])
    && (forall x: string :: EntryKey(0, x) in n <==> EntryKey(0, x) in first)
    && (forall x: string | EntryKey(0, x) in first :: n[EntryKey(0, x)] == first[EntryKey(0, x)])
  }

  lemma PlainKeepsLifted(plain: SemanticMap, m: SemanticMap, n: SemanticMap, first: SemanticMap)
    requires Lifted(m, n, first) && Plain(plain)
    ensures Lifted(plain + m, plain + n, first)
  {
    hide Split, IsEntry;
    forall j: nat, x: string
      ensures EntryKey(j, x) !in plain
    {
      SplitEntry(j, x);
    }
  }

  lemma ListIsLifted(m: SemanticMap, n: SemanticMap, first: SemanticMap, plain: SemanticMap)
    requires OneApart(0, m, n) && Plain(plain)
    requires forall k | k in first :: IsEntry(k, 0) && Split(k).index == 0
    ensures Lifted(m + plain, first + n + plain, first)
  {
    hide Split, EntryKey;
    forall j: nat, x: string
      ensures EntryKey(j, x) !in plain && (j > 0 ==> EntryKey(j, x) !in first) && (j == 0 ==> EntryKey(j, x) !in n)
    {
      SplitEntry(j, x);
    }
    forall k | k in m || k in n || k in first
      ensures "sdo[" <= k && IsEntry(k, 0)
    {
      SplitEntry(Split(k).index, Split(k).rest);
    }
  }

  lemma {:induction false} UnrelatedIsPlain(items: seq<Item>)
    requires forall i | 0 <= i < |items| :: Unrelated(items[i])
    ensures var m := FlattenItems(items, ""); m.Ok? ==> Plain(m.value)
  {
    if items != [] {
      UnrelatedIsPlain(items[1..]);
      hide Flatten, FlattenItem, AboutList;
      assert Unrelated(items[0]);
    }
  }

  lemma NothingIsLifted(first: SemanticMap)
    requires forall k | k in first :: IsEntry(k, 0) && Split(k).index == 0
    ensures Lifted(map[], first, first)
  {
    hide Split, EntryKey;
    var none: SemanticMap := map[];
    assert OneApart(0, none, none);
    ListIsLifted(none, none, first, none);
    hide Lifted;
    assert none + none == none && first + none + none == first;
  }

  /** Inserting an entry in the tree lifts the flattened map. */
  lemma {:induction false} TreeIsLifted(items: seq<Item>, entry: Node)
    requires WellFormed(items)
    requires Flatten(entry, IndexPrefix("sdo", 0)).Ok?
    requires forall k | k in Flatten(entry, IndexPrefix("sdo", 0)).value :: IsEntry(k, 0) && Split(k).index == 0
    ensures var m, n := FlattenItems(items, ""), FlattenItems(InsertFirst(items, entry), "");
            if m.Ok? then n.Ok? && Lifted(m.value, n.value, Flatten(entry, IndexPrefix("sdo", 0)).value) else n == m
  {
    var first := Flatten(entry, IndexPrefix("sdo", 0)).value;
    if items == [] {
      hide Lifted;
      NothingIsLifted(first);
      OneEntry(entry);
    } else if IsList(items[0]) {
      hide Lifted;
      ListedFirst(items, entry);
    } else {
      TreeIsLifted(items[1..], entry);
      hide Lifted, Flatten, FlattenItem, WellFormed;
      var m, n := FlattenItems(items[1..], ""), FlattenItems(InsertFirst(items[1..], entry), "");
      var r := InsertFirst(items, entry);
      assert r[0] == items[0] && r[1..] == InsertFirst(items[1..], entry);
      if FlattenItem(items[0], "").Ok? && m.Ok? {
        PlainKeepsLifted(FlattenItem(items[0], "").value, m.value, n.value, first);
      }
    }
  }

  lemma OneEntry(entry: Node)
    requires Flatten(entry, IndexPrefix("sdo", 0)).Ok?
    ensures FlattenItems([Item(PlainScalar("sdo"), SequenceNode([entry]))], "") == Flatten(entry, IndexPrefix("sdo", 0))
  {
    var item := Item(PlainScalar("sdo"), SequenceNode([entry]));
    ListItem(item);
    assert item.child.elements == [entry];
    assert FlattenElements([entry][1..], "sdo", 1) == Ok(map[]);
    assert FlattenItems([item][1..], "") == Ok(map[]);
    hide Flatten, FlattenItem;
    var first := Flatten(entry, IndexPrefix("sdo", 0)).value;
    assert first + map[] == first;
    assert FlattenElements([entry], "sdo", 0) == Ok(first);
  }

  lemma ListItem(item: Item)
    requires IsList(item) && item.child.SequenceNode?
    ensures FlattenItem(item, "") == FlattenElements(item.child.elements, "sdo", 0)
  {
    assert ChildPrefix("", item.key.scalar.text) == "sdo";
    assert FlattenItem(item, "") == Flatten(item.child, "sdo");
    hide FlattenItem;
  }

  lemma ListedFirst(items: seq<Item>, entry: Node)
    requires items != [] && WellFormed(items) && IsList(items[0])
    requires Flatten(entry, IndexPrefix("sdo", 0)).Ok?
    requires forall k | k in Flatten(entry, IndexPrefix("sdo", 0)).value :: IsEntry(k, 0) && Split(k).index == 0
    ensures var m, n := FlattenItems(items, ""), FlattenItems(InsertFirst(items, entry), "");
            if m.Ok? then n.Ok? && Lifted(m.value, n.value, Flatten(entry, IndexPrefix("sdo", 0)).value) else n == m
  {
    var first := Flatten(entry, IndexPrefix("sdo", 0)).value;
    var elements := items[0].child.elements;
    var item := Item(items[0].key, SequenceNode([entry] + elements));
    ListItem(items[0]);
    ListItem(item);
    ListOneApart(elements, 0);
    UnrelatedIsPlain(items[1..]);
    hide Flatten, FlattenItem, IsList, Unrelated, Lifted, OneApart, Plain, IsEntry;
    assert ([entry] + elements)[1..] == elements;
    var r := InsertFirst(items, entry);
    assert r == [item] + items[1..] && r[0] == item && r[1..] == items[1..];
    var m, n := FlattenElements(elements, "sdo", 0), FlattenElements(elements, "sdo", 1);
    var rest := FlattenItems(items[1..], "");
    assert FlattenElements([entry] + elements, "sdo", 0) == Merge(Ok(first), n);
    if m.Ok? && rest.Ok? {
      ListIsLifted(m.value, n.value, first, rest.value);
    }
  }

  // ---------- The shifted map ----------

  datatype Pair = Pair(key: string, value: Scalar)

  /** The entries of a dictionary, in some order. */
  ghost predicate Lists(pairs: seq<Pair>, m: SemanticMap) {
    && (forall i | 0 <= i < |pairs| :: pairs[i].key in m && m[pairs[i].key] == pairs[i].value)
    && (forall k | k in m :: exists i :: 0 <= i < |pairs| && pairs[i].key == k)
  }

  /** What the loop over a profile builds, one assignment after the other. */
  function ShiftAll(pairs: seq<Pair>): SemanticMap {
    if pairs == [] then map[]
    else
      var last := pairs[|pairs| - 1];
      ShiftAll(pairs[..|pairs| - 1])[ShiftKey(last.key) := last.value]
  }

  function Prepended(pairs: seq<Pair>, valueType: string): SemanticMap {
    ShiftAll(pairs) + Head(valueType)
  }

  method PrependSyncTolerance(profile: seq<Pair>, valueType: string) returns (expected: SemanticMap)
    ensures expected == Prepended(profile, valueType)
  {
    expected := map[];
    for i := 0 to |profile|
      invariant expected == ShiftAll(profile[..i])
    {
      assert profile[..i + 1][..i] == profile[..i];
      var key := profile[i].key;
      var path := Split(key);
      if path.Entry? && FitsLine(path.rest) {
        expected := expected[EntryKey(path.index + 1, Line(path.rest)) := profile[i].value];
      } else {
        expected := expected[key := profile[i].value];
      }
    }
    assert profile[..|profile|] == profile;
    expected := expected + Head(valueType);
  }

  lemma {:induction false} ShiftedKeys(pairs: seq<Pair>, key: string)
    ensures key in ShiftAll(pairs) <==> exists i :: 0 <= i < |pairs| && ShiftKey(pairs[i].key) == key
  {
    hide ShiftKey;
    if pairs != [] {
      var n := |pairs| - 1;
      ShiftedKeys(pairs[..n], key);
      assert forall i | 0 <= i < n :: pairs[..n][i] == pairs[i];
    }
  }

  lemma {:induction false} ShiftedValue(pairs: seq<Pair>, i: nat)
    requires i < |pairs|
    requires forall j | 0 <= j < |pairs| && ShiftKey(pairs[j].key) == ShiftKey(pairs[i].key) ::
               pairs[j].value == pairs[i].value
    ensures ShiftKey(pairs[i].key) in ShiftAll(pairs) && ShiftAll(pairs)[ShiftKey(pairs[i].key)] == pairs[i].value
  {
    hide ShiftKey;
    var n := |pairs| - 1;
    if i < n && ShiftKey(pairs[n].key) != ShiftKey(pairs[i].key) {
      ShiftedValue(pairs[..n], i);
    }
  }

  // ---------- Prepending in the map is inserting in the tree ----------

  /** No path into the list holds a newline. */
  predicate OneLinePaths(m: SemanticMap) {
    forall k | k in m && AboutList(k) :: '\n' !in k
  }

  lemma EntryNewline(index: nat, rest: string)
    ensures '\n' in EntryKey(index, rest) <==> '\n' in rest
  {
    var digits := Decimal.Print(index);
    assert EntryKey(index, rest) == "sdo[" + (digits + ("]" + rest));
    assert '\n' !in digits;
    hide EntryKey;
  }

  lemma PlainKeyStays(key: string)
    requires !AboutList(key)
    ensures ShiftKey(key) == key
  {
  }

  /** On one-line paths the shift is what lifting does, so no two paths collide. */
  lemma ShiftLifts(m: SemanticMap, n: SemanticMap, first: SemanticMap, key: string)
    requires Lifted(m, n, first) && OneLinePaths(m) && key in m
    ensures AboutList(key) ==>
              IsEntry(key, 0) && ShiftKey(key) == EntryKey(Split(key).index + 1, Split(key).rest)
    ensures !AboutList(key) ==> ShiftKey(key) == key
    ensures ShiftKey(key) in n && n[ShiftKey(key)] == m[key]
    ensures AboutList(ShiftKey(key)) <==> AboutList(key)
  {
    hide Split, EntryKey, ShiftKey, FitsLine, Line, AboutList;
    if AboutList(key) {
      var index, rest := Split(key).index, Split(key).rest;
      assert key == EntryKey(index, rest);
      EntryNewline(index, rest);
      ShiftEntry(index, rest);
      SplitEntry(index + 1, rest);
      AboutEntry(index + 1, rest);
    } else {
      PlainKeyStays(key);
    }
  }

  lemma AboutEntry(index: nat, rest: string)
    ensures AboutList(EntryKey(index, rest))
  {
    SplitEntry(index, rest);
    hide EntryKey;
  }

  lemma NoCollision(m: SemanticMap, n: SemanticMap, first: SemanticMap, a: string, b: string)
    requires Lifted(m, n, first) && OneLinePaths(m) && a in m && b in m && ShiftKey(a) == ShiftKey(b)
    ensures a == b
  {
    ShiftLifts(m, n, first, a);
    ShiftLifts(m, n, first, b);
    if AboutList(a) {
      SplitEntry(Split(a).index + 1, Split(a).rest);
      SplitEntry(Split(b).index + 1, Split(b).rest);
    }
    hide *;
  }

  /** The new entry's own paths. */
  ghost predicate IsFirst(first: SemanticMap) {
    forall k | k in first :: IsEntry(k, 0) && Split(k).index == 0
  }

  lemma ShiftedHolds(pairs: seq<Pair>, m: SemanticMap, n: SemanticMap, first: SemanticMap, key: string)
    requires Lists(pairs, m) && Lifted(m, n, first) && OneLinePaths(m) && key in m
    ensures ShiftKey(key) in ShiftAll(pairs) && ShiftAll(pairs)[ShiftKey(key)] == n[ShiftKey(key)] == m[key]
  {
    ShiftLifts(m, n, first, key);
    var i :| 0 <= i < |pairs| && pairs[i].key == key;
    forall j | 0 <= j < |pairs| && ShiftKey(pairs[j].key) == ShiftKey(pairs[i].key)
      ensures pairs[j].value == pairs[i].value
    {
      NoCollision(m, n, first, pairs[j].key, pairs[i].key);
    }
    hide Lifted, ShiftKey;
    ShiftedValue(pairs, i);
  }

  lemma ShiftedIsLifted(pairs: seq<Pair>, m: SemanticMap, n: SemanticMap, first: SemanticMap, key: string)
    requires Lists(pairs, m) && Lifted(m, n, first) && OneLinePaths(m) && IsFirst(first)
    requires key in ShiftAll(pairs) + first
    ensures key in n
  {
    if key in first {
      assert key == EntryKey(0, Split(key).rest);
    } else {
      hide Lifted, ShiftKey;
      ShiftedKeys(pairs, key);
      var i :| 0 <= i < |pairs| && ShiftKey(pairs[i].key) == key;
      ShiftLifts(m, n, first, pairs[i].key);
    }
  }

  lemma LiftedIsShifted(pairs: seq<Pair>, m: SemanticMap, n: SemanticMap, first: SemanticMap, key: string)
    requires Lists(pairs, m) && Lifted(m, n, first) && OneLinePaths(m) && IsFirst(first) && key in n
    ensures key in ShiftAll(pairs) + first && (ShiftAll(pairs) + first)[key] == n[key]
  {
    hide Split, EntryKey, ShiftKey, FitsLine, Line, AboutList, Lists, ShiftAll;
    if AboutList(key) {
      var index, rest := Split(key).index, Split(key).rest;
      assert key == EntryKey(index, rest);
      if index > 0 {
        var previous := EntryKey(index - 1, rest);
        assert EntryKey(index - 1 + 1, rest) in n;
        assert previous in m;
        SplitEntry(index - 1, rest);
        AboutEntry(index - 1, rest);
        ShiftLifts(m, n, first, previous);
        ShiftedHolds(pairs, m, n, first, previous);
        SplitEntry(index, rest);
      }
    } else {
      PlainKeyStays(key);
      ShiftedHolds(pairs, m, n, first, key);
      if key in first {
        FirstIsAbout(first, key);
      }
    }
  }

  lemma FirstIsAbout(first: SemanticMap, key: string)
    requires IsFirst(first) && key in first
    ensures AboutList(key)
  {
    AboutEntry(0, Split(key).rest);
  }

  lemma OneLineCommutes(pairs: seq<Pair>, m: SemanticMap, n: SemanticMap, first: SemanticMap)
    requires Lists(pairs, m) && Lifted(m, n, first) && OneLinePaths(m) && IsFirst(first)
    ensures ShiftAll(pairs) + first == n
  {
    hide *;
    forall key | key in n
      ensures key in ShiftAll(pairs) + first && (ShiftAll(pairs) + first)[key] == n[key]
    {
      LiftedIsShifted(pairs, m, n, first, key);
    }
    forall key | key in ShiftAll(pairs) + first
      ensures key in n
    {
      ShiftedIsLifted(pairs, m, n, first, key);
    }
  }

  // ---------- What a newline does ----------

  lemma {:induction false} IndexBound(keys: set<string>) returns (bound: nat)
    ensures forall k | k in keys && Split(k).Entry? :: Split(k).index <= bound
  {
    bound := 0;
    if keys != {} {
      var k :| k in keys;
      bound := IndexBound(keys - {k});
      if Split(k).Entry? && Split(k).index > bound {
        bound := Split(k).index;
      }
    }
  }

  /** The last entry of the list that has the path `rest`. */
  lemma {:induction false} LastWith(m: SemanticMap, index: nat, rest: string, bound: nat) returns (last: nat)
    requires EntryKey(index, rest) in m && index <= bound
    requires forall k | k in m && Split(k).Entry? :: Split(k).index <= bound
    ensures EntryKey(last, rest) in m && EntryKey(last + 1, rest) !in m
    decreases bound - index
  {
    hide EntryKey, Split;
    last := index;
    SplitEntry(index + 1, rest);
    if EntryKey(index + 1, rest) in m {
      last := LastWith(m, index + 1, rest, bound);
    }
  }

  lemma ShiftLosesNewlines(key: string)
    requires '\n' in ShiftKey(key)
    ensures ShiftKey(key) == key
  {
    var path := Split(key);
    if path.Entry? && FitsLine(path.rest) {
      assert '\n' !in Line(path.rest);
      EntryNewline(path.index + 1, Line(path.rest));
    }
  }

  lemma ListedIsIn(pairs: seq<Pair>, m: SemanticMap, i: nat)
    requires Lists(pairs, m) && i < |pairs|
    ensures pairs[i].key in m
  {
  }

  lemma NewlineBreaks(pairs: seq<Pair>, m: SemanticMap, n: SemanticMap, first: SemanticMap)
    requires Lists(pairs, m) && Lifted(m, n, first) && !OneLinePaths(m) && IsFirst(first)
    ensures ShiftAll(pairs) + first != n
  {
    hide Split, EntryKey, ShiftKey, FitsLine, Line, ShiftAll, Lists;
    var key :| key in m && AboutList(key) && '\n' in key;
    var index, rest := Split(key).index, Split(key).rest;
    assert key == EntryKey(index, rest);
    var bound := IndexBound(m.Keys);
    var last := LastWith(m, index, rest, bound);
    var lost := EntryKey(last + 1, rest);
    assert lost in n;
    EntryNewline(index, rest);
    EntryNewline(last + 1, rest);
    SplitEntry(last + 1, rest);
    ShiftedKeys(pairs, lost);
    if lost in ShiftAll(pairs) {
      var i :| 0 <= i < |pairs| && ShiftKey(pairs[i].key) == lost;
      ShiftLosesNewlines(pairs[i].key);
      ListedIsIn(pairs, m, i);
      assert false;
    }
  }

  lemma HeadIsFirst(valueType: string)
    ensures IsFirst(Head(valueType))
  {
    var p := IndexPrefix("sdo", 0);
    assert p != "" by { EntriesAreSomewhere(0); }
    HeadIsFirstEntry(valueType);
    FlattenBelow(SyncTolerance(valueType), p, p);
    BelowEntry(0, Head(valueType));
    hide IndexPrefix, Head, Flatten;
  }

  /** Prepending the start-up entry to a flattened configuration is flattening
      the configuration with the entry inserted, exactly if no path into its list
      holds a newline; configurations that cannot be flattened stay so. */
  lemma PrependIsInsert(items: seq<Item>, pairs: seq<Pair>, valueType: string)
    requires WellFormed(items)
    ensures var m := Flatten(MappingNode(items), "");
            var n := Flatten(MappingNode(InsertFirst(items, SyncTolerance(valueType))), "");
            if m.Err? then n == m
            else
              n.Ok? && (Lists(pairs, m.value) ==>
                (Prepended(pairs, valueType) == n.value <==> OneLinePaths(m.value)))
  {
    hide Lifted, Head, OneLinePaths, Lists, WellFormed, ShiftAll;
    HeadIsFirstEntry(valueType);
    HeadIsFirst(valueType);
    TreeIsLifted(items, SyncTolerance(valueType));
    var m := FlattenItems(items, "");
    var n := FlattenItems(InsertFirst(items, SyncTolerance(valueType)), "");
    if m.Ok? && Lists(pairs, m.value) {
      if OneLinePaths(m.value) {
        OneLineCommutes(pairs, m.value, n.value, Head(valueType));
      } else {
        NewlineBreaks(pairs, m.value, n.value, Head(valueType));
      }
    }
  }

  /** What the shift does to the paths that break it: a last newline is lost, and
      one before the end keeps the path in place. */
  lemma NewlinesAreMishandled(index: nat, rest: string, tail: string)
    requires '\n' !in rest && tail != ""
    ensures ShiftKey(EntryKey(index, rest + "\n")) == EntryKey(index + 1, rest)
    ensures ShiftKey(EntryKey(index, rest + "\n" + tail)) == EntryKey(index, rest + "\n" + tail)
  {
    SplitEntry(index, rest + "\n");
    assert (rest + "\n")[..|rest|] == rest;
    var longer := rest + "\n" + tail;
    SplitEntry(index, longer);
    assert longer[..|longer| - 1][|rest|] == '\n';
    hide Split, EntryKey;
  }

  lemma MergeNothing(m: Flattened)
    ensures Merge(Ok(map[]), m) == m
  {
    if m.Ok? {
      assert map[] + m.value == m.value;
    }
  }

  lemma MergeStep(flattened: SemanticMap, child: Flattened, rest: Flattened)
    ensures Merge(Ok(flattened), Merge(child, rest)) ==
            if child.Ok? then Merge(Ok(flattened + child.value), rest) else child
  {
    if child.Ok? && rest.Ok? {
      assert flattened + (child.value + rest.value) == (flattened + child.value) + rest.value;
    }
  }

  /** Of several entries with the same path the last one counts. */
  lemma {:induction false} LaterReplaces(items: seq<Item>, last: Item, prefix: string)
    requires FlattenItems(items, prefix).Ok? && FlattenItem(last, prefix).Ok?
    ensures var m := FlattenItems(items + [last], prefix);
            && m.Ok?
            && (forall k | k in FlattenItem(last, prefix).value ::
                  k in m.value && m.value[k] == FlattenItem(last, prefix).value[k])
            && (forall k | k !in FlattenItem(last, prefix).value ::
                  (k in m.value <==> k in FlattenItems(items, prefix).value) &&
                  (k in m.value ==> m.value[k] == FlattenItems(items, prefix).value[k]))
  {
    hide Flatten, FlattenItem;
    if items == [] {
      assert [last][1..] == [] && items + [last] == [last];
    } else {
      assert (items + [last])[0] == items[0] && (items + [last])[1..] == items[1..] + [last];
      LaterReplaces(items[1..], last, prefix);
    }
  }

  // ---------- The recursive walk that builds the map ----------

  method FlattenNode(node: Node, prefix: string) returns (r: Flattened)
    ensures r == Flatten(node, prefix)
    decreases node
  {
    match node
    case ScalarNode(scalar) =>
      r := if prefix == "" then Err(ScalarRoot) else Ok(map[prefix := scalar]);
    case MappingNode(items) =>
      var flattened: SemanticMap := map[];
      assert items[0..] == items;
      MergeNothing(FlattenItems(items, prefix));
      for i := 0 to |items|
        invariant Flatten(node, prefix) == Merge(Ok(flattened), FlattenItems(items[i..], prefix))
      {
        var key := items[i].key;
        if !key.ScalarNode? {
          return Err(NonScalarKey);
        }
        assert items[i].child < items[i];
        var child := FlattenNode(items[i].child, ChildPrefix(prefix, key.scalar.text));
        assert items[i..][1..] == items[i + 1..];
        MergeStep(flattened, child, FlattenItems(items[i + 1..], prefix));
        if child.Err? {
          return child;
        }
        flattened := flattened + child.value;
      }
      assert flattened + map[] == flattened;
      r := Ok(flattened);
    case SequenceNode(elements) =>
      var flattened: SemanticMap := map[];
      assert elements[0..] == elements;
      MergeNothing(FlattenElements(elements, prefix, 0));
      for i := 0 to |elements|
        invariant Flatten(node, prefix) == Merge(Ok(flattened), FlattenElements(elements[i..], prefix, i))
      {
        var child := FlattenNode(elements[i], IndexPrefix(prefix, i));
        assert elements[i..][1..] == elements[i + 1..];
        MergeStep(flattened, child, FlattenElements(elements[i + 1..], prefix, i + 1));
        if child.Err? {
          return child;
        }
        flattened := flattened + child.value;
      }
      assert flattened + map[] == flattened;
      r := Ok(flattened);
    case OtherNode => r := Err(UnsupportedNode);
  }

  // ---------- Comparing two maps ----------

  predicate Equivalent(expected: Scalar, actual: Scalar) {
    expected.kind == actual.kind &&
    if expected.kind == FloatKind then expected.text == actual.text else expected.value == actual.value
  }

  function Get(m: SemanticMap, key: string): Option<Scalar> {
    if key in m then Some(m[key]) else None
  }

  datatype Difference = Difference(key: string, expected: Option<Scalar>, actual: Option<Scalar>)

  /** Two maps agree on a key that both lack, or that both have with equivalent values. */
  predicate Agree(expected: SemanticMap, actual: SemanticMap, key: string) {
    (key in expected <==> key in actual) &&
    (key in expected && key in actual ==> Equivalent(expected[key], actual[key]))
  }

  /** Two scalars read from nodes are equivalent exactly if they have the same type
      and, as that type, mean the same: integers the same number however it is
      spelled, truth values the same truth, floating-point numbers and strings the
      same text. */
  lemma EquivalentMeans(tag: Tag, text: string, otherTag: Tag, otherText: string)
    requires ScalarOf(tag, text).Some? && ScalarOf(otherTag, otherText).Some?
    ensures Equivalent(ScalarOf(tag, text).value, ScalarOf(otherTag, otherText).value) <==>
            tag == otherTag &&
            match tag
            case IntTag => ParseInteger(text) == ParseInteger(otherText)
            case BoolTag => IsTrue(text) == IsTrue(otherText)
            case NullTag => true
            case _ => text == otherText
  {
    hide ParseInteger, IsTrue;
  }

  /** The order in which sorting puts strings. */
  predicate Before(a: string, b: string) {
    b != "" && (a == "" || a[0] < b[0] || (a[0] == b[0] && Before(a[1..], b[1..])))
  }

  lemma {:induction false} BeforeIsTotal(a: string, b: string)
    ensures a != b ==> Before(a, b) || Before(b, a)
  {
    if a != "" && b != "" && a[0] == b[0] {
      BeforeIsTotal(a[1..], b[1..]);
      assert a == [a[0]] + a[1..] && b == [b[0]] + b[1..];
    }
  }

  lemma {:induction false} BeforeIsTransitive(a: string, b: string, c: string)
    requires Before(a, b) && Before(b, c)
    ensures Before(a, c)
  {
    if a != "" && a[0] == b[0] == c[0] {
      BeforeIsTransitive(a[1..], b[1..], c[1..]);
    }
  }

  predicate IsLeast(key: string, keys: set<string>) {
    key in keys && forall k | k in keys && k != key :: Before(key, k)
  }

  lemma {:induction false} LeastExists(keys: set<string>)
    requires keys != {}
    ensures exists key :: IsLeast(key, keys)
  {
    var some :| some in keys;
    if keys == {some} {
      assert IsLeast(some, keys);
    } else {
      LeastExists(keys - {some});
      var rest :| IsLeast(rest, keys - {some});
      BeforeIsTotal(some, rest);
      forall k | k in keys && Before(some, rest) && Before(rest, k)
        ensures Before(some, k)
      {
        BeforeIsTransitive(some, rest, k);
      }
      assert IsLeast(if Before(some, rest) then some else rest, keys);
    }
  }

  predicate Listed(differences: seq<Difference>, key: string) {
    exists i :: 0 <= i < |differences| && differences[i].key == key
  }

  /** With the keys in `open` still to come, the differences so far are those of
      all other keys, in order and before all of `open`. */
  ghost predicate Reports(expected: SemanticMap, actual: SemanticMap, open: set<string>, differences: seq<Difference>) {
    && (forall key | key !in open :: Agree(expected, actual, key) <==> !Listed(differences, key))
    && (forall d | d in differences ::
          d.expected == Get(expected, d.key) && d.actual == Get(actual, d.key) && d.key !in open)
    && (forall i, j | 0 <= i < j < |differences| :: Before(differences[i].key, differences[j].key))
    && (forall d, k | d in differences && k in open :: Before(d.key, k))
  }

  lemma AgreeingKey(expected: SemanticMap, actual: SemanticMap, open: set<string>, differences: seq<Difference>,
                    key: string)
    requires Reports(expected, actual, open, differences) && key in open && Agree(expected, actual, key)
    ensures Reports(expected, actual, open - {key}, differences)
  {
    hide Agree, Before;
  }

  lemma DifferingKey(expected: SemanticMap, actual: SemanticMap, open: set<string>, differences: seq<Difference>,
                     key: string)
    requires Reports(expected, actual, open, differences) && IsLeast(key, open) && !Agree(expected, actual, key)
    ensures var d := Difference(key, Get(expected, key), Get(actual, key));
            Reports(expected, actual, open - {key}, differences + [d])
  {
    hide Agree, Before;
    var d := Difference(key, Get(expected, key), Get(actual, key));
    var longer := differences + [d];
    assert longer[|differences|] == d;
    assert forall i | 0 <= i < |differences| :: longer[i] == differences[i];
    forall k
      ensures Listed(longer, k) <==> Listed(differences, k) || k == key
    {
      if i :| 0 <= i < |differences| && differences[i].key == k {
        assert longer[i].key == k;
      }
    }
  }

  lemma NothingYet(expected: SemanticMap, actual: SemanticMap)
    ensures Reports(expected, actual, expected.Keys + actual.Keys, [])
  {
    hide Equivalent;
  }

  lemma AllReported(expected: SemanticMap, actual: SemanticMap, differences: seq<Difference>)
    requires Reports(expected, actual, {}, differences)
    ensures forall key :: Agree(expected, actual, key) <==> !Listed(differences, key)
    ensures differences == [] <==>
            expected.Keys == actual.Keys && forall key | key in expected && key in actual ::
              Equivalent(expected[key], actual[key])
  {
    hide Equivalent, Before;
    if differences != [] {
      assert Listed(differences, differences[0].key);
      assert !Agree(expected, actual, differences[0].key);
    } else {
      forall key
        ensures key in expected <==> key in actual
        ensures key in expected && key in actual ==> Equivalent(expected[key], actual[key])
      {
        assert Agree(expected, actual, key);
      }
    }
  }

  /** Every key on which the maps disagree is reported once, in sorted order and
      with what each map holds. */
  method CompareMaps(expected: SemanticMap, actual: SemanticMap) returns (differences: seq<Difference>)
    ensures forall key :: Agree(expected, actual, key) <==> !Listed(differences, key)
    ensures forall d | d in differences :: d.expected == Get(expected, d.key) && d.actual == Get(actual, d.key)
    ensures forall i, j | 0 <= i < j < |differences| :: Before(differences[i].key, differences[j].key)
    ensures differences == [] <==>
            expected.Keys == actual.Keys && forall key | key in expected && key in actual ::
              Equivalent(expected[key], actual[key])
  {
    hide Equivalent, Before, Listed;
    differences := [];
    var keys := expected.Keys + actual.Keys;
    NothingYet(expected, actual);
    while keys != {}
      invariant keys <= expected.Keys + actual.Keys && Reports(expected, actual, keys, differences)
      decreases |keys|
    {
      hide Reports;
      LeastExists(keys);
      var key :| key in keys && IsLeast(key, keys);
      var expectedValue, actualValue := Get(expected, key), Get(actual, key);
      if expectedValue.None? || actualValue.None? || !Equivalent(expectedValue.value, actualValue.value) {
        DifferingKey(expected, actual, keys, differences, key);
        differences := differences + [Difference(key, expectedValue, actualValue)];
      } else {
        AgreeingKey(expected, actual, keys, differences, key);
      }
      keys := keys - {key};
    }
    AllReported(expected, actual, differences);
  }
}
