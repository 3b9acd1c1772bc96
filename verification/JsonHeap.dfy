/** The same masking on mutable dictionaries and lists: `_remove_path` pops keys in place. */
module JsonHeap {
  import opened Ordering
  import opened JsonTree
  import ComputeGolden

  datatype Cell =
    | Scalar(value: Json)
    | ListOf(items: seq<Node>)
    | DictOf(fields: map<string, Node>)

  /** A parsed JSON value as Python holds it; `model` is the value it currently stands for. */
  class Node {
    var cell: Cell
    ghost var Repr: set<Node>
    ghost var model: Json

    ghost predicate Valid()
      reads this, Repr
      decreases Repr
    {
      && this in Repr
      && match cell
         case Scalar(v) => model == v && !v.Arr? && !v.Obj?
         case ListOf(items) =>
           && model.Arr? && |model.items| == |items|
           && (forall i :: 0 <= i < |items| ==>
                             && items[i] in Repr && items[i].Repr <= Repr - {this} && items[i].Valid()
                             && model.items[i] == items[i].model)
           && (forall i, j :: 0 <= i < j < |items| ==> items[i].Repr !! items[j].Repr)
         case DictOf(fields) =>
           && model.Obj? && model.fields.Keys == fields.Keys
           && (forall k :: k in fields ==>
                             && fields[k] in Repr && fields[k].Repr <= Repr - {this} && fields[k].Valid()
                             && model.fields[k] == fields[k].model)
           && (forall k, l :: k in fields && l in fields && k != l ==> fields[k].Repr !! fields[l].Repr)
    }

    constructor (v: Json)
      requires !v.Arr? && !v.Obj?
      ensures Valid() && fresh(Repr) && model == v
    {
      cell := Scalar(v);
      Repr := {this};
      model := v;
    }

    constructor OfList(items: seq<Node>, ghost below: set<Node>, ghost m: Json)
      requires m.Arr? && |m.items| == |items|
      requires forall i :: 0 <= i < |items| ==>
                 items[i].Valid() && items[i] in below && items[i].Repr <= below && items[i].model == m.items[i]
      requires forall i, j :: 0 <= i < j < |items| ==> items[i].Repr !! items[j].Repr
      ensures Valid() && Repr == below + {this} && model == m
    {
      cell := ListOf(items);
      Repr := below + {this};
      model := m;
    }

    constructor OfDict(fields: map<string, Node>, ghost below: set<Node>, ghost m: Json)
      requires m.Obj? && m.fields.Keys == fields.Keys && Copied(fields, below, m)
      ensures Valid() && Repr == below + {this} && model == m
    {
      cell := DictOf(fields);
      Repr := below + {this};
      model := m;
    }

    lemma DictHolds(fields: map<string, Node>)
      requires Valid() && cell == DictOf(fields)
      ensures Copied(fields, Repr - {this}, model)
    {
    }

    lemma DictValid(fields: map<string, Node>)
      requires this in Repr && cell == DictOf(fields) && model.Obj? && model.fields.Keys == fields.Keys
      requires Copied(fields, Repr - {this}, model)
      ensures Valid()
    {
    }

    lemma ListHolds(items: seq<Node>)
      requires Valid() && cell == ListOf(items)
      ensures ItemsHold(items, Repr - {this}, model.items)
    {
    }

    lemma ListValid(items: seq<Node>)
      requires this in Repr && cell == ListOf(items) && model.Arr? && |model.items| == |items|
      requires ItemsHold(items, Repr - {this}, model.items)
      ensures Valid()
    {
    }

    /** `_remove_path`. */
    method RemovePath(segments: seq<string>)
      requires Valid()
      modifies Repr
      ensures Valid() && Repr == old(Repr)
      ensures model == JsonTree.RemovePath(old(model), segments)
      decreases Repr, 1
    {
      if segments == [] {
        return;
      }
      match cell
      case Scalar(_) =>
      case ListOf(items) => RemoveInItems(items, segments);
      case DictOf(fields) =>
        if segments[1..] == [] {
          cell := DictOf(fields - {segments[0]});
          model := Obj(model.fields - {segments[0]});
        } else if segments[0] in fields {
          RemoveInField(fields, segments[0], segments[1..]);
        }
    }

    method RemoveInField(fields: map<string, Node>, head: string, rest: seq<string>)
      requires Valid() && cell == DictOf(fields) && head in fields
      modifies Repr
      ensures Valid() && Repr == old(Repr)
      ensures model == Obj(old(model).fields[head := JsonTree.RemovePath(old(model).fields[head], rest)])
      decreases Repr, 0
    {
      DictHolds(fields);
      ghost var below := Repr - {this};
      RemoveBelow(fields, head, rest, below, model);
      model := Obj(model.fields[head := JsonTree.RemovePath(model.fields[head], rest)]);
      DictValid(fields);
    }

    method RemoveInItems(items: seq<Node>, segments: seq<string>)
      requires Valid() && cell == ListOf(items) && segments != []
      modifies Repr
      ensures Valid() && Repr == old(Repr)
      ensures model == JsonTree.RemovePath(old(model), segments)
      decreases Repr, 0
    {
      ListHolds(items);
      ghost var below, values := Repr - {this}, model.items;
      for i := 0 to |items|
        invariant ItemsHold(items, below, RemovedUpTo(values, segments, i))
        invariant cell == ListOf(items) && Repr == old(Repr) == below + {this} && model == old(model)
      {
        RemoveInItem(items, i, segments, below, RemovedUpTo(values, segments, i));
        RemovedStep(values, segments, i);
      }
      model := JsonTree.RemovePath(model, segments);
      assert model.items == RemovedUpTo(values, segments, |values|);
      ListValid(items);
    }
  }

  // ---- What the children of a node hold ----

  /** The first `n` values have had the path removed. */
  ghost function RemovedUpTo(values: seq<Json>, segments: seq<string>, n: nat): (r: seq<Json>)
    ensures |r| == |values|
  {
    seq(|values|, i requires 0 <= i < |values| => if i < n then JsonTree.RemovePath(values[i], segments) else values[i])
  }

  lemma RemovedStep(values: seq<Json>, segments: seq<string>, n: nat)
    requires n < |values|
    ensures RemovedUpTo(values, segments, n + 1)
            == RemovedUpTo(values, segments, n)[n := JsonTree.RemovePath(values[n], segments)]
    ensures RemovedUpTo(values, segments, n)[n] == values[n]
  {
  }

  /** The entries stand for those of `t`, in nodes of their own. */
  ghost predicate Copied(copies: map<string, Node>, below: set<Node>, t: Json)
    requires t.Obj? && copies.Keys <= t.fields.Keys
    reads below
  {
    && (forall k :: k in copies ==> copies[k] in below && copies[k].Repr <= below)
    && (forall k :: k in copies ==> copies[k].Valid() && copies[k].model == t.fields[k])
    && (forall k, l :: k in copies && l in copies && k != l ==> copies[k].Repr !! copies[l].Repr)
  }

  /** The items stand for `values`, in nodes of their own. */
  ghost predicate ItemsHold(items: seq<Node>, below: set<Node>, values: seq<Json>)
    requires |values| == |items|
    reads below
  {
    && (forall i :: 0 <= i < |items| ==> items[i] in below && items[i].Repr <= below)
    && (forall i :: 0 <= i < |items| ==> items[i].Valid() && items[i].model == values[i])
    && (forall i, j :: 0 <= i < j < |items| ==> items[i].Repr !! items[j].Repr)
  }

  ghost function Without(fields: map<string, Node>, head: string): map<string, Node> {
    fields - {head}
  }

  /** The same of all items but one. */
  ghost predicate ItemsHoldBut(items: seq<Node>, n: nat, others: set<Node>, values: seq<Json>)
    requires |values| == |items|
    reads others
  {
    && (forall i :: 0 <= i < |items| && i != n ==> items[i] in others && items[i].Repr <= others)
    && (forall i :: 0 <= i < |items| && i != n ==> items[i].Valid() && items[i].model == values[i])
    && (forall i, j :: 0 <= i < j < |items| && i != n && j != n ==> items[i].Repr !! items[j].Repr)
  }

  lemma FieldApart(fields: map<string, Node>, head: string, below: set<Node>, t: Json)
    requires t.Obj? && fields.Keys <= t.fields.Keys && head in fields && Copied(fields, below, t)
    ensures Copied(Without(fields, head), below - fields[head].Repr, t)
  {
    forall k | k in fields && k != head ensures fields[k] in fields[k].Repr && fields[k].Repr !! fields[head].Repr {
      assert fields[k].Valid();
    }
  }

  lemma FieldBack(fields: map<string, Node>, head: string, below: set<Node>, t: Json, m: Json)
    requires t.Obj? && fields.Keys <= t.fields.Keys && head in fields
    requires Copied(Without(fields, head), below - fields[head].Repr, t)
    requires fields[head] in below && fields[head].Repr <= below && fields[head].Valid() && fields[head].model == m
    ensures Copied(fields, below, Obj(t.fields[head := m]))
  {
    var apart := Without(fields, head);
    forall k | k in fields && k != head
      ensures fields[k] in below && fields[k].Repr <= below && fields[k].Repr !! fields[head].Repr
      ensures fields[k].Valid() && fields[k].model == t.fields[k]
    {
      assert apart[k] == fields[k];
    }
    forall k, l | k in fields && l in fields && k != l ensures fields[k].Repr !! fields[l].Repr {
      if k != head && l != head {
        assert apart[k].Repr !! apart[l].Repr;
      }
    }
  }

  lemma ItemApart(items: seq<Node>, n: nat, below: set<Node>, values: seq<Json>)
    requires |values| == |items| && n < |items| && ItemsHold(items, below, values)
    ensures ItemsHoldBut(items, n, below - items[n].Repr, values)
  {
    forall i | 0 <= i < |items| && i != n ensures items[i] in items[i].Repr && items[i].Repr !! items[n].Repr {
      assert items[i].Valid();
    }
  }

  lemma ItemBack(items: seq<Node>, n: nat, below: set<Node>, values: seq<Json>, m: Json)
    requires |values| == |items| && n < |items| && ItemsHoldBut(items, n, below - items[n].Repr, values)
    requires items[n] in below && items[n].Repr <= below && items[n].Valid() && items[n].model == m
    ensures ItemsHold(items, below, values[n := m])
  {
  }

  /** One entry changes, all others stay what they are. */
  method RemoveBelow(fields: map<string, Node>, head: string, rest: seq<string>, ghost below: set<Node>, ghost t: Json)
    requires t.Obj? && fields.Keys <= t.fields.Keys && head in fields && Copied(fields, below, t)
    modifies fields[head].Repr
    ensures Copied(fields, below, Obj(t.fields[head := JsonTree.RemovePath(t.fields[head], rest)]))
    decreases below, 2
  {
    FieldApart(fields, head, below, t);
    fields[head].RemovePath(rest);
    FieldBack(fields, head, below, t, JsonTree.RemovePath(t.fields[head], rest));
  }

  /** One item changes, all others stay what they are. */
  method RemoveInItem(items: seq<Node>, n: nat, segments: seq<string>, ghost below: set<Node>, ghost values: seq<Json>)
    requires |values| == |items| && n < |items| && ItemsHold(items, below, values)
    modifies items[n].Repr
    ensures ItemsHold(items, below, values[n := JsonTree.RemovePath(values[n], segments)])
    decreases below, 2
  {
    ItemApart(items, n, below, values);
    items[n].RemovePath(segments);
    ItemBack(items, n, below, values, JsonTree.RemovePath(values[n], segments));
  }

  /** `json.dumps`: the value a node stands for. */
  method Dump(node: Node) returns (t: Json)
    requires node.Valid()
    ensures t == node.model
    decreases node.Repr, 1
  {
    match node.cell
    case Scalar(v) => t := v;
    case ListOf(items) => t := DumpItems(node, items);
    case DictOf(fields) => t := DumpFields(node, fields);
  }

  method DumpItems(node: Node, items: seq<Node>) returns (t: Json)
    requires node.Valid() && node.cell == ListOf(items)
    ensures t == node.model
    decreases node.Repr, 0
  {
    var values: seq<Json> := [];
    for i := 0 to |items|
      invariant values == node.model.items[..i]
    {
      var value := Dump(items[i]);
      values := values + [value];
    }
    t := Arr(values);
  }

  method DumpFields(node: Node, fields: map<string, Node>) returns (t: Json)
    requires node.Valid() && node.cell == DictOf(fields)
    ensures t == node.model
    decreases node.Repr, 0
  {
    node.DictHolds(fields);
    var values := DumpEntries(fields, node.Repr - {node}, node.model);
    t := Obj(values);
  }

  method DumpEntries(fields: map<string, Node>, ghost below: set<Node>, ghost model: Json)
    returns (values: map<string, Json>)
    requires model.Obj? && fields.Keys == model.fields.Keys && Copied(fields, below, model)
    ensures values == model.fields
    decreases below, 3
  {
    values := map[];
    var todo := fields.Keys;
    while todo != {}
      invariant AllBut(values, model.fields, todo)
      decreases |todo|
    {
      var key :| key in todo;
      var value := DumpEntry(fields, key, below, model);
      OneMore(values, model.fields, todo, key);
      values := values[key := value];
      todo := todo - {key};
    }
  }

  /** The entries of `all` but those still to do. */
  ghost predicate AllBut(values: map<string, Json>, all: map<string, Json>, todo: set<string>)
    ensures AllBut(values, all, todo) && todo == {} ==> values == all
  {
    todo <= all.Keys && values == all - todo
  }

  lemma OneMore(values: map<string, Json>, all: map<string, Json>, todo: set<string>, key: string)
    requires AllBut(values, all, todo) && key in todo
    ensures key in all && AllBut(values[key := all[key]], all, todo - {key})
  {
    assert values[key := all[key]] == all - (todo - {key});
  }

  method DumpEntry(fields: map<string, Node>, key: string, ghost below: set<Node>, ghost model: Json)
    returns (t: Json)
    requires model.Obj? && fields.Keys == model.fields.Keys && key in fields && Copied(fields, below, model)
    ensures t == model.fields[key]
    decreases below, 2
  {
    t := Dump(fields[key]);
  }

  /** `json.loads`: fresh nodes that stand for the value. */
  method Load(t: Json) returns (node: Node)
    ensures node.Valid() && fresh(node.Repr) && node.model == t
    decreases t, 2
  {
    match t
    case Arr(items) => node := LoadItems(t);
    case Obj(fields) => node := LoadFields(t);
    case _ => node := new Node(t);
  }

  method LoadItems(t: Json) returns (node: Node)
    requires t.Arr?
    ensures node.Valid() && fresh(node.Repr) && node.model == t
    decreases t, 0
  {
    var copies: seq<Node> := [];
    ghost var below: set<Node> := {};
    for i := 0 to |t.items|
      invariant |copies| == i && fresh(below)
      invariant forall j :: 0 <= j < i ==>
                  copies[j].Valid() && copies[j] in below && copies[j].Repr <= below && copies[j].model == t.items[j]
      invariant forall j, k :: 0 <= j < k < i ==> copies[j].Repr !! copies[k].Repr
    {
      var copy := Load(t.items[i]);
      copies := copies + [copy];
      below := below + copy.Repr;
    }
    node := new Node.OfList(copies, below, t);
  }

  lemma CopiedGrows(copies: map<string, Node>, below: set<Node>, t: Json, key: string, copy: Node)
    requires t.Obj? && copies.Keys <= t.fields.Keys && key in t.fields && key !in copies
    requires Copied(copies, below, t)
    requires copy.Valid() && copy.model == t.fields[key] && copy.Repr !! below
    ensures Copied(copies[key := copy], below + copy.Repr, t)
  {
  }

  method LoadEntries(t: Json) returns (copies: map<string, Node>, ghost below: set<Node>)
    requires t.Obj?
    ensures copies.Keys == t.fields.Keys && Copied(copies, below, t) && fresh(below)
    decreases t, 0
  {
    copies, below := map[], {};
    var todo := t.fields.Keys;
    while todo != {}
      invariant todo <= t.fields.Keys && copies.Keys == t.fields.Keys - todo && fresh(below)
      invariant Copied(copies, below, t)
      decreases |todo|
    {
      var key :| key in todo;
      var copy := Load(t.fields[key]);
      CopiedGrows(copies, below, t, key, copy);
      copies := copies[key := copy];
      below := below + copy.Repr;
      todo := todo - {key};
    }
  }

  method LoadFields(t: Json) returns (node: Node)
    requires t.Obj?
    ensures node.Valid() && fresh(node.Repr) && node.model == t
    decreases t, 1
  {
    ghost var below;
    var copies;
    copies, below := LoadEntries(t);
    node := new Node.OfDict(copies, below, t);
  }

  /** `json.loads(json.dumps(payload))`: the same value in nodes of its own. */
  method DeepCopy(payload: Node) returns (copy: Node)
    requires payload.Valid()
    ensures payload.Valid() && unchanged(payload.Repr)
    ensures copy.Valid() && fresh(copy.Repr) && copy.model == payload.model
  {
    var text := Dump(payload);
    copy := Load(text);
  }

  /** `apply_mask`: the payload's nodes are untouched, and the copy, which shares none of them, stands
      for the masked value. */
  method ApplyMask(payload: Node, mask: seq<string>) returns (masked: Node)
    requires payload.Valid()
    ensures payload.Valid() && unchanged(payload.Repr)
    ensures masked.Valid() && fresh(masked.Repr)
    ensures masked.model == ComputeGolden.Masked(payload.model, mask)
    ensures var paths := ComputeGolden.Segments(mask);
      forall loc ::
        ShapeAt(masked.model, loc) == if JsonTree.Hidden(paths, loc) then None else ShapeAt(payload.model, loc)
  {
    masked := DeepCopy(payload);
    ghost var t := payload.model;
    ghost var paths := ComputeGolden.Segments(mask);
    for i := 0 to |mask|
      invariant payload.Valid() && unchanged(payload.Repr)
      invariant masked.Valid() && fresh(masked.Repr)
      invariant masked.model == RemovePaths(t, paths[..i])
    {
      masked.RemovePath(SplitDots(mask[i]));
      assert paths[..i + 1][..i] == paths[..i];
    }
    assert paths[..|mask|] == paths;
    ComputeGolden.SegmentsNonEmpty(mask);
    forall loc ensures ShapeAt(masked.model, loc) ==
                       if JsonTree.Hidden(paths, loc) then None else ShapeAt(t, loc)
    {
      RemovePathsExact(t, paths, loc);
    }
  }
}
