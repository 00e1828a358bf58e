/** Compose files as YAML trees. Parsing and printing are taken to be inverse, so an
    editor of compose text is a function on trees. A mapping is a list of pairs in
    document order; the program looks keys up by first match. */
module ComposeTree {
  import opened Collections

  datatype Node =
    | Scalar(tag: string, text: string, quoted: bool)
    | Mapping(pairs: seq<Pair>)
    | Sequence(items: seq<Node>)
    | Alias(anchor: string)

  datatype Pair = Pair(key: Node, val: Node)

  datatype Error = EmptyArgument | RootNotMapping | NoServices | ServicesNotMapping | NoSuchService
                 | ServiceNotMapping | NoImage | ImageNotScalar | EmptyImage | UnsupportedLabels

  datatype Result = Ok(tree: Node) | Err(error: Error)

  function Str(text: string): Node { Scalar("!!str", text, false) }

  function Quoted(text: string): Node { Scalar("!!str", text, true) }

  /** The Value field of a yaml node. */
  function Value(n: Node): string {
    match n
    case Scalar(_, text, _) => text
    case Alias(anchor) => anchor
    case _ => ""
  }

  function IndexOf(pairs: seq<Pair>, key: string): (r: Option<nat>)
    ensures r.Some? ==> r.value < |pairs| && Value(pairs[r.value].key) == key
                        && forall j :: 0 <= j < r.value ==> Value(pairs[j].key) != key
    ensures r.None? ==> forall p :: p in pairs ==> Value(p.key) != key
  {
    if pairs == [] then None
    else if Value(pairs[0].key) == key then Some(0)
    else
      match IndexOf(pairs[1..], key)
      case None => None
      case Some(i) => Some(i + 1)
  }

  function Find(n: Node, key: string): Option<Node> {
    if !n.Mapping? then None
    else
      match IndexOf(n.pairs, key)
      case None => None
      case Some(i) => Some(n.pairs[i].val)
  }

  /** Replaces the value at a position, leaving the key. */
  function SetVal(pairs: seq<Pair>, i: nat, v: Node): (r: seq<Pair>)
    requires i < |pairs|
    ensures |r| == |pairs| && forall j :: 0 <= j < |r| ==> r[j] == if j == i then Pair(pairs[j].key, v) else pairs[j]
  {
    pairs[i := Pair(pairs[i].key, v)]
  }

  ghost predicate SameKeys(ps: seq<Pair>, qs: seq<Pair>) {
    |ps| == |qs| && forall i :: 0 <= i < |ps| ==> ps[i].key == qs[i].key
  }

  lemma {:induction false} SameKeysSameIndex(ps: seq<Pair>, qs: seq<Pair>, key: string)
    requires SameKeys(ps, qs)
    ensures IndexOf(ps, key) == IndexOf(qs, key)
  {
    if ps != [] {
      assert ps[0].key == qs[0].key;
      assert SameKeys(ps[1..], qs[1..]);
      SameKeysSameIndex(ps[1..], qs[1..], key);
    }
  }

  ghost predicate UniqueKeys(pairs: seq<Pair>) {
    forall i, j :: 0 <= i < j < |pairs| ==> Value(pairs[i].key) != Value(pairs[j].key)
  }
}
