/** Service labels of a compose file: reading them (parseLabels) and setting one on every
    service (SetServiceLabel, setServiceLabelOnNode), internal/docker/compose.go. */
module ServiceLabels {
  import opened Collections
  import opened ComposeTree

  /** What fmt prints for a decoded value: a string is shown as it is, and any other value by
      a rendering of its own that is not part of this model. */
  datatype Shown = Verbatim(text: string) | Rendered(node: Node)

  type Labels = map<string, Shown>

  // ---- Reading ---------------------------------------------------------------------------------

  predicate IsString(n: Node) { n.Scalar? && n.tag == "!!str" }

  function Show(n: Node): Shown { if IsString(n) then Verbatim(n.text) else Rendered(n) }

  /** Position of the first '=', or the length. */
  function FirstEq(s: string): (i: nat)
    ensures i <= |s| && (i < |s| ==> s[i] == '=') && forall j :: 0 <= j < i ==> s[j] != '='
  {
    if s == "" || s[0] == '=' then 0 else 1 + FirstEq(s[1..])
  }

  function KeyPart(s: string): string { s[..FirstEq(s)] }

  function ValuePart(s: string): string { if FirstEq(s) < |s| then s[FirstEq(s) + 1..] else "" }

  /** The decoder yields a string-keyed map only when every key is a string. */
  predicate StringKeys(pairs: seq<Pair>) { forall p :: p in pairs ==> IsString(p.key) }

  function MapLabels(pairs: seq<Pair>): Labels {
    if pairs == [] then map[]
    else
      var n := |pairs| - 1;
      MapLabels(pairs[..n])[Value(pairs[n].key) := Show(pairs[n].val)]
  }

  function SeqLabels(items: seq<Node>): Labels {
    if items == [] then map[]
    else
      var n := |items| - 1;
      var rest := SeqLabels(items[..n]);
      if IsString(items[n]) then rest[KeyPart(items[n].text) := Verbatim(ValuePart(items[n].text))] else rest
  }

  function LabelsOf(field: Option<Node>): Labels {
    match field
    case Some(Mapping(pairs)) => if StringKeys(pairs) then MapLabels(pairs) else map[]
    case Some(Sequence(items)) => SeqLabels(items)
    case _ => map[]
  }

  function ServiceLabels(svc: Node): Labels { LabelsOf(Find(svc, "labels")) }

  method ParseLabels(field: Option<Node>) returns (result: Labels)
    ensures result == LabelsOf(field)
  {
    result := map[];
    if field.Some? && field.value.Mapping? {
      var pairs := field.value.pairs;
      if StringKeys(pairs) {
        for i := 0 to |pairs|
          invariant result == MapLabels(pairs[..i])
        {
          assert pairs[..i + 1][..i] == pairs[..i];
          result := result[Value(pairs[i].key) := Show(pairs[i].val)];
        }
        assert pairs[..|pairs|] == pairs;
      }
    } else if field.Some? && field.value.Sequence? {
      var items := field.value.items;
      for i := 0 to |items|
        invariant result == SeqLabels(items[..i])
      {
        assert items[..i + 1][..i] == items[..i];
        if IsString(items[i]) {
          result := result[KeyPart(items[i].text) := Verbatim(ValuePart(items[i].text))];
        }
      }
      assert items[..|items|] == items;
    }
  }

  // ---- Writing ---------------------------------------------------------------------------------

  function Without<T>(s: seq<T>, i: nat): (r: seq<T>)
    requires i < |s|
    ensures |r| == |s| - 1 && forall j :: 0 <= j < |r| ==> r[j] == if j < i then s[j] else s[j + 1]
  {
    s[..i] + s[i + 1..]
  }

  /** A list entry for the key: the key alone or followed by '=', whatever the scalar's tag. */
  predicate Matches(item: Node, key: string) {
    item.Scalar? && (item.text == key || key + "=" <= item.text)
  }

  function ItemIndex(items: seq<Node>, key: string): (r: Option<nat>)
    ensures r.Some? ==> r.value < |items| && Matches(items[r.value], key)
                        && forall j :: 0 <= j < r.value ==> !Matches(items[j], key)
    ensures r.None? ==> forall n :: n in items ==> !Matches(n, key)
  {
    if items == [] then None
    else if Matches(items[0], key) then Some(0)
    else
      match ItemIndex(items[1..], key)
      case None => None
      case Some(i) => Some(i + 1)
  }

  function PutPair(pairs: seq<Pair>, key: string, value: string): seq<Pair> {
    match IndexOf(pairs, key)
    case Some(i) => SetVal(pairs, i, Quoted(value))
    case None => pairs + [Pair(Str(key), Quoted(value))]
  }

  function DropPair(pairs: seq<Pair>, key: string): seq<Pair> {
    match IndexOf(pairs, key)
    case Some(i) => Without(pairs, i)
    case None => pairs
  }

  function PutItem(items: seq<Node>, key: string, value: string): seq<Node> {
    match ItemIndex(items, key)
    case Some(i) => items[i := Scalar("!!str", key + "=" + value, items[i].quoted)]
    case None => items + [Str(key + "=" + value)]
  }

  function DropItem(items: seq<Node>, key: string): seq<Node> {
    match ItemIndex(items, key)
    case Some(i) => Without(items, i)
    case None => items
  }

  function FreshLabels(key: string, value: string): Node { Mapping([Pair(Str(key), Quoted(value))]) }

  /** The new labels field; None: the field is removed. */
  function EditLabels(labels: Node, key: string, value: string): Option<Node>
    requires !labels.Alias?
  {
    match labels
    case Mapping(pairs) =>
      if value != "" then Some(Mapping(PutPair(pairs, key, value)))
      else if DropPair(pairs, key) == [] then None else Some(Mapping(DropPair(pairs, key)))
    case Sequence(items) =>
      if value != "" then Some(Sequence(PutItem(items, key, value)))
      else if DropItem(items, key) == [] then None else Some(Sequence(DropItem(items, key)))
    case Scalar(_, _, _) =>
      if value != "" then Some(FreshLabels(key, value)) else Some(labels)
  }

  function WithField(svc: Node, field: string, v: Option<Node>): Node
    requires svc.Mapping?
  {
    match (IndexOf(svc.pairs, field), v)
    case (Some(i), Some(n)) => Mapping(SetVal(svc.pairs, i, n))
    case (Some(i), None) => Mapping(Without(svc.pairs, i))
    case (None, Some(n)) => Mapping(svc.pairs + [Pair(Str(field), n)])
    case (None, None) => svc
  }

  function SetOnService(svc: Node, key: string, value: string): Result
    requires svc.Mapping?
  {
    match Find(svc, "labels")
    case None => Ok(WithField(svc, "labels", if value == "" then None else Some(FreshLabels(key, value))))
    case Some(labels) =>
      if labels.Alias? then Err(UnsupportedLabels)
      else Ok(WithField(svc, "labels", EditLabels(labels, key, value)))
  }

  datatype PairsResult = AllDone(pairs: seq<Pair>) | Stopped(error: Error)

  /** Services in document order; those that are not mappings are left alone. */
  function SetOnAll(services: seq<Pair>, key: string, value: string): PairsResult {
    if services == [] then AllDone([])
    else
      var one := if services[0].val.Mapping? then SetOnService(services[0].val, key, value) else Ok(services[0].val);
      match one
      case Err(e) => Stopped(e)
      case Ok(svc) =>
        match SetOnAll(services[1..], key, value)
        case Stopped(e) => Stopped(e)
        case AllDone(rest) => AllDone([Pair(services[0].key, svc)] + rest)
  }

  function SetServiceLabel(root: Node, key: string, value: string): Result {
    if key == "" then Err(EmptyArgument)
    else if !root.Mapping? then Err(RootNotMapping)
    else
      match IndexOf(root.pairs, "services")
      case None => Err(NoServices)
      case Some(i) =>
        var services := root.pairs[i].val;
        if !services.Mapping? then Err(ServicesNotMapping)
        else if services.pairs == [] then Err(NoServices)
        else
          match SetOnAll(services.pairs, key, value)
          case Stopped(e) => Err(e)
          case AllDone(pairs) => Ok(Mapping(SetVal(root.pairs, i, Mapping(pairs))))
  }

  // ---- What is read back, list form -------------------------------------------------------------

  predicate EntryFor(item: Node, k: string) { IsString(item) && KeyPart(item.text) == k }

  function LastFor(items: seq<Node>, k: string): (r: Option<nat>)
    ensures r.Some? ==> r.value < |items| && EntryFor(items[r.value], k)
                        && forall j :: r.value < j < |items| ==> !EntryFor(items[j], k)
    ensures r.None? ==> forall j :: 0 <= j < |items| ==> !EntryFor(items[j], k)
  {
    if items == [] then None
    else
      var n := |items| - 1;
      if EntryFor(items[n], k) then Some(n) else LastFor(items[..n], k)
  }

  /** In list form the last entry for a key wins. */
  lemma {:induction false} LastEntryWins(items: seq<Node>, k: string)
    ensures k in SeqLabels(items) <==> LastFor(items, k).Some?
    ensures LastFor(items, k).Some? ==> SeqLabels(items)[k] == Verbatim(ValuePart(items[LastFor(items, k).value].text))
  {
    if items != [] {
      LastEntryWins(items[..|items| - 1], k);
    }
  }

  lemma {:induction false} FirstEqOfJoin(key: string, value: string)
    requires '=' !in key
    ensures KeyPart(key + "=" + value) == key && ValuePart(key + "=" + value) == value
    ensures KeyPart(key) == key
  {
    var s := key + "=" + value;
    assert s[|key|] == '=';
    assert forall j :: 0 <= j < |key| ==> s[j] == key[j];
  }

  /** For a key without '=', the entries the editor looks for are those the reader credits to it. */
  lemma MatchesIsEntry(item: Node, key: string)
    requires '=' !in key && IsString(item)
    ensures Matches(item, key) <==> EntryFor(item, key)
  {
    var t, i := item.text, FirstEq(item.text);
    assert i < |t| ==> t[..i] + "=" == t[..i + 1];
    if key + "=" <= t {
      assert t[|key|] == '=';
      assert forall j :: 0 <= j < |key| ==> t[j] == key[j];
    }
  }

  /** A position where two lists may differ, with no entry for k there in either. */
  lemma SameLast(xs: seq<Node>, ys: seq<Node>, i: nat, k: string)
    requires |xs| == |ys| && i < |xs| && forall j :: 0 <= j < |xs| && j != i ==> xs[j] == ys[j]
    requires !EntryFor(xs[i], k) && !EntryFor(ys[i], k)
    ensures LastFor(xs, k) == LastFor(ys, k)
  {
  }

  /** No later string entry for the key hides the one that the editor writes. */
  predicate NotShadowed(items: seq<Node>, key: string, value: string) {
    match (ItemIndex(items, key), LastFor(items, key))
    case (Some(i), Some(last)) => last <= i || ValuePart(items[last].text) == value
    case _ => true
  }

  lemma SeqOthersKept(items: seq<Node>, key: string, value: string, k: string)
    requires '=' !in key && k != key
    ensures LastFor(PutItem(items, key, value), k).Some? <==> LastFor(items, k).Some?
    ensures LastFor(items, k).Some? ==>
              PutItem(items, key, value)[LastFor(PutItem(items, key, value), k).value] == items[LastFor(items, k).value]
  {
    var after := PutItem(items, key, value);
    FirstEqOfJoin(key, value);
    match ItemIndex(items, key)
    case Some(i) =>
      if IsString(items[i]) { MatchesIsEntry(items[i], key); }
      SameLast(items, after, i, k);
    case None =>
      assert after[..|items|] == items;
  }

  function Later(i: nat, last: Option<nat>): nat { if last.Some? && last.value > i then last.value else i }

  /** Rewriting the entry at i makes the last entry that one or one that was already behind it. */
  lemma LastAfterPut(items: seq<Node>, i: nat, item: Node, k: string)
    requires i < |items| && EntryFor(item, k)
    ensures LastFor(items[i := item], k) == Some(Later(i, LastFor(items, k)))
  {
    var after, last := items[i := item], Later(i, LastFor(items, k));
    assert EntryFor(after[last], k);
  }

  lemma SeqOwnValue(items: seq<Node>, key: string, value: string)
    requires '=' !in key
    ensures key in SeqLabels(PutItem(items, key, value))
    ensures SeqLabels(PutItem(items, key, value))[key] == Verbatim(value) <==> NotShadowed(items, key, value)
  {
    var after := PutItem(items, key, value);
    FirstEqOfJoin(key, value);
    LastEntryWins(after, key);
    match ItemIndex(items, key)
    case Some(i) => LastAfterPut(items, i, after[i], key);
    case None => assert LastFor(after, key) == Some(|items|);
  }

  lemma SeqSetReads(items: seq<Node>, key: string, value: string)
    ensures SeqLabels(PutItem(items, key, value)) == SeqLabels(items)[key := Verbatim(value)]
            <==> '=' !in key && NotShadowed(items, key, value)
  {
    var after := PutItem(items, key, value);
    if '=' in key {
      LastEntryWins(after, key);
    } else {
      SeqOwnValue(items, key, value);
      forall k | k != key
        ensures k in SeqLabels(after) <==> k in SeqLabels(items)
        ensures k in SeqLabels(items) ==> SeqLabels(after)[k] == SeqLabels(items)[k]
      {
        SeqOthersKept(items, key, value, k);
        LastEntryWins(after, k);
        LastEntryWins(items, k);
      }
    }
  }

  /** The entry removed is the only one for its key. */
  predicate SoleEntry(items: seq<Node>, key: string) {
    forall j :: 0 <= j < |items| && EntryFor(items[j], key) ==> ItemIndex(items, key) == Some(j)
  }

  predicate SameLabel(m: Labels, n: Labels, k: string) {
    (k in m <==> k in n) && (k in m ==> m[k] == n[k])
  }

  lemma SameLabels(m: Labels, n: Labels)
    ensures m == n <==> forall k :: SameLabel(m, n, k)
  {
    if forall k :: SameLabel(m, n, k) {
      assert forall k :: k in m <==> k in n by {
        forall k ensures k in m <==> k in n { assert SameLabel(m, n, k); }
      }
      assert forall k :: k in m ==> m[k] == n[k] by {
        forall k | k in m ensures m[k] == n[k] { assert SameLabel(m, n, k); }
      }
    }
  }

  /** The entries that count for k are the same. */
  predicate SameLastEntry(xs: seq<Node>, ys: seq<Node>, k: string) {
    match (LastFor(xs, k), LastFor(ys, k))
    case (None, None) => true
    case (Some(i), Some(j)) => xs[i].text == ys[j].text
    case _ => false
  }

  lemma SameEntrySameLabel(xs: seq<Node>, ys: seq<Node>, k: string)
    requires SameLastEntry(xs, ys, k)
    ensures SameLabel(SeqLabels(xs), SeqLabels(ys), k)
  {
    LastEntryWins(xs, k);
    LastEntryWins(ys, k);
  }

  lemma LastAfterDrop(items: seq<Node>, i: nat, k: string)
    requires i < |items| && !EntryFor(items[i], k)
    ensures LastFor(Without(items, i), k) ==
            match LastFor(items, k) case None => None case Some(l) => Some(if l < i then l else l - 1)
    ensures SameLastEntry(Without(items, i), items, k)
  {
    var after := Without(items, i);
    var a, b := LastFor(items, k), LastFor(after, k);
    if a.Some? { assert after[if a.value < i then a.value else a.value - 1] == items[a.value]; }
    if b.Some? { assert after[b.value] == items[if b.value < i then b.value else b.value + 1]; }
  }

  lemma SeqDropOther(items: seq<Node>, key: string, k: string)
    requires '=' !in key && k != key
    ensures SameLastEntry(DropItem(items, key), items, k)
  {
    match ItemIndex(items, key)
    case Some(i) =>
      if IsString(items[i]) { MatchesIsEntry(items[i], key); }
      LastAfterDrop(items, i, k);
    case None =>
  }

  lemma SeqDropOwn(items: seq<Node>, key: string)
    requires '=' !in key
    ensures key !in SeqLabels(DropItem(items, key)) <==> SoleEntry(items, key)
  {
    var after := DropItem(items, key);
    LastEntryWins(after, key);
    match ItemIndex(items, key)
    case Some(i) =>
      assert forall j :: i <= j < |after| ==> after[j] == items[j + 1];
      assert forall j :: i < j < |items| ==> items[j] == after[j - 1];
    case None =>
      forall j | 0 <= j < |items| ensures !EntryFor(items[j], key) {
        if IsString(items[j]) { MatchesIsEntry(items[j], key); }
      }
  }

  /** The value an entry gave to its own key is still there without it: a later entry hides it,
      or the one that counted before says the same. */
  predicate Redundant(items: seq<Node>, i: nat)
    requires i < |items|
  {
    !IsString(items[i]) ||
    (var k := KeyPart(items[i].text);
     LastFor(items, k) != Some(i) ||
     (match LastFor(items[..i], k)
      case None => false
      case Some(j) => ValuePart(items[j].text) == ValuePart(items[i].text)))
  }

  lemma LastAfterDropLast(items: seq<Node>, i: nat, k: string)
    requires LastFor(items, k) == Some(i)
    ensures LastFor(Without(items, i), k) == LastFor(items[..i], k)
    ensures LastFor(items[..i], k).Some? ==> Without(items, i)[LastFor(items[..i], k).value] == items[LastFor(items[..i], k).value]
  {
    var after, a := Without(items, i), LastFor(items[..i], k);
    assert forall j :: i <= j < |after| ==> after[j] == items[j + 1] && !EntryFor(after[j], k);
    assert forall j :: 0 <= j < i ==> after[j] == items[j] == items[..i][j];
  }

  lemma LastAfterDropEarlier(items: seq<Node>, i: nat, l: nat, k: string)
    requires i < l && LastFor(items, k) == Some(l)
    ensures LastFor(Without(items, i), k) == Some(l - 1) && SameLastEntry(Without(items, i), items, k)
  {
    var after := Without(items, i);
    assert after[l - 1] == items[l];
    assert forall j :: l <= j < |after| ==> after[j] == items[j + 1] && !EntryFor(after[j], k);
  }

  /** For the key of the dropped entry itself. */
  lemma DropOwnKey(items: seq<Node>, i: nat)
    requires i < |items| && IsString(items[i])
    ensures var k, after := KeyPart(items[i].text), Without(items, i);
            && k in SeqLabels(items)
            && (Redundant(items, i) <==> k in SeqLabels(after) && SeqLabels(after)[k] == SeqLabels(items)[k])
  {
    var k, after := KeyPart(items[i].text), Without(items, i);
    LastEntryWins(items, k);
    LastEntryWins(after, k);
    var l := LastFor(items, k).value;
    if l == i {
      LastAfterDropLast(items, i, k);
    } else {
      LastAfterDropEarlier(items, i, l, k);
      SameEntrySameLabel(after, items, k);
    }
  }

  lemma DropOtherKey(items: seq<Node>, i: nat, k: string)
    requires i < |items| && !EntryFor(items[i], k)
    ensures SameLabel(SeqLabels(Without(items, i)), SeqLabels(items), k)
  {
    LastAfterDrop(items, i, k);
    SameEntrySameLabel(Without(items, i), items, k);
  }

  lemma DropChangesNothingIff(items: seq<Node>, i: nat)
    requires i < |items|
    ensures SeqLabels(Without(items, i)) == SeqLabels(items) <==> Redundant(items, i)
  {
    var m, n := SeqLabels(Without(items, i)), SeqLabels(items);
    if IsString(items[i]) {
      DropOwnKey(items, i);
      assert Redundant(items, i) <==> SameLabel(m, n, KeyPart(items[i].text));
    }
    forall k | !EntryFor(items[i], k) ensures SameLabel(m, n, k) {
      DropOtherKey(items, i, k);
    }
    SameLabels(m, n);
  }

  /** When dropping the entry for a key removes that label and no other. A key with '=' is
      never read as a label, so for it nothing may change. */
  predicate DropIsClean(items: seq<Node>, key: string) {
    if '=' in key then ItemIndex(items, key).Some? ==> Redundant(items, ItemIndex(items, key).value)
    else SoleEntry(items, key)
  }

  lemma SeqDropReads(items: seq<Node>, key: string)
    ensures SeqLabels(DropItem(items, key)) == SeqLabels(items) - {key} <==> DropIsClean(items, key)
  {
    if '=' in key {
      LastEntryWins(items, key);
      assert SeqLabels(items) - {key} == SeqLabels(items);
      if ItemIndex(items, key).Some? { DropChangesNothingIff(items, ItemIndex(items, key).value); }
    } else {
      SeqDropPlainKey(items, key);
    }
  }

  lemma SeqDropPlainKey(items: seq<Node>, key: string)
    requires '=' !in key
    ensures SeqLabels(DropItem(items, key)) == SeqLabels(items) - {key} <==> SoleEntry(items, key)
  {
    var m, n := SeqLabels(DropItem(items, key)), SeqLabels(items) - {key};
    SeqDropOwn(items, key);
    assert SameLabel(m, n, key) <==> SoleEntry(items, key);
    forall k | k != key ensures SameLabel(m, n, k) {
      SeqDropOther(items, key, k);
      SameEntrySameLabel(DropItem(items, key), items, k);
    }
    SameLabels(m, n);
  }

  // ---- What is read back, mapping form ---------------------------------------------------------

  lemma {:induction false} MapLabelsAt(pairs: seq<Pair>, i: nat)
    requires UniqueKeys(pairs) && i < |pairs|
    ensures Value(pairs[i].key) in MapLabels(pairs) && MapLabels(pairs)[Value(pairs[i].key)] == Show(pairs[i].val)
  {
    var n := |pairs| - 1;
    if i < n {
      var front := pairs[..n];
      assert front[i] == pairs[i];
      assert Value(pairs[i].key) != Value(pairs[n].key);
      MapLabelsAt(front, i);
    }
  }

  lemma {:induction false} MapLabelsHas(pairs: seq<Pair>, k: string)
    ensures k in MapLabels(pairs) <==> IndexOf(pairs, k).Some?
  {
    if pairs != [] {
      var n := |pairs| - 1;
      MapLabelsHas(pairs[..n], k);
      if IndexOf(pairs[..n], k).Some? { assert pairs[..n][IndexOf(pairs[..n], k).value] == pairs[IndexOf(pairs[..n], k).value]; }
      if IndexOf(pairs, k).Some? && IndexOf(pairs, k).value < n { assert pairs[..n][IndexOf(pairs, k).value] in pairs[..n]; }
      assert pairs[n] in pairs;
    }
  }

  /** With unique keys a mapping reads as the function from its keys to its values. */
  ghost predicate Reads(pairs: seq<Pair>, m: Labels) {
    && (forall i :: 0 <= i < |pairs| ==> Value(pairs[i].key) in m && m[Value(pairs[i].key)] == Show(pairs[i].val))
    && (forall k :: k in m ==> exists i :: 0 <= i < |pairs| && Value(pairs[i].key) == k)
  }

  lemma MapLabelsRead(pairs: seq<Pair>, m: Labels)
    requires UniqueKeys(pairs)
    ensures Reads(pairs, m) <==> m == MapLabels(pairs)
  {
    forall i | 0 <= i < |pairs|
      ensures Value(pairs[i].key) in MapLabels(pairs) && MapLabels(pairs)[Value(pairs[i].key)] == Show(pairs[i].val)
    {
      MapLabelsAt(pairs, i);
    }
    forall k | k in MapLabels(pairs) ensures exists i :: 0 <= i < |pairs| && Value(pairs[i].key) == k {
      MapLabelsHas(pairs, k);
      assert Value(pairs[IndexOf(pairs, k).value].key) == k;
    }
    if Reads(pairs, m) {
      assert m.Keys == MapLabels(pairs).Keys;
    }
  }

  lemma PutPairReads(pairs: seq<Pair>, key: string, value: string)
    requires UniqueKeys(pairs)
    ensures UniqueKeys(PutPair(pairs, key, value))
    ensures MapLabels(PutPair(pairs, key, value)) == MapLabels(pairs)[key := Verbatim(value)]
  {
    MapLabelsRead(pairs, MapLabels(pairs));
    match IndexOf(pairs, key)
    case Some(i) => SetReads(pairs, MapLabels(pairs), i, value);
    case None => AppendReads(pairs, MapLabels(pairs), key, value);
  }

  lemma SetReads(pairs: seq<Pair>, m: Labels, i: nat, value: string)
    requires UniqueKeys(pairs) && Reads(pairs, m) && i < |pairs|
    ensures UniqueKeys(SetVal(pairs, i, Quoted(value)))
    ensures MapLabels(SetVal(pairs, i, Quoted(value))) == m[Value(pairs[i].key) := Verbatim(value)]
  {
    var after, n := SetVal(pairs, i, Quoted(value)), m[Value(pairs[i].key) := Verbatim(value)];
    forall k | k in n ensures exists j :: 0 <= j < |after| && Value(after[j].key) == k {
      var j :| 0 <= j < |pairs| && Value(pairs[j].key) == k;
      assert Value(after[j].key) == k;
    }
    assert Reads(after, n);
    MapLabelsRead(after, n);
  }

  lemma AppendReads(pairs: seq<Pair>, m: Labels, key: string, value: string)
    requires UniqueKeys(pairs) && Reads(pairs, m) && forall p :: p in pairs ==> Value(p.key) != key
    ensures UniqueKeys(pairs + [Pair(Str(key), Quoted(value))])
    ensures MapLabels(pairs + [Pair(Str(key), Quoted(value))]) == m[key := Verbatim(value)]
  {
    var after, n := pairs + [Pair(Str(key), Quoted(value))], m[key := Verbatim(value)];
    assert after[..|pairs|] == pairs && after[|pairs|] == Pair(Str(key), Quoted(value));
    assert forall i :: 0 <= i < |pairs| ==> pairs[i] in pairs;
    MapLabelsRead(pairs, m);
  }

  lemma DropPairReads(pairs: seq<Pair>, key: string)
    requires UniqueKeys(pairs)
    ensures UniqueKeys(DropPair(pairs, key))
    ensures MapLabels(DropPair(pairs, key)) == MapLabels(pairs) - {key}
  {
    match IndexOf(pairs, key)
    case Some(i) =>
      WithoutUnique(pairs, i);
      WithoutReads(pairs, i);
    case None => MapLabelsHas(pairs, key);
  }

  lemma WithoutUnique(pairs: seq<Pair>, i: nat)
    requires UniqueKeys(pairs) && i < |pairs|
    ensures UniqueKeys(Without(pairs, i))
    ensures forall j :: 0 <= j < |Without(pairs, i)| ==> Value(Without(pairs, i)[j].key) != Value(pairs[i].key)
  {
  }

  lemma UpdateThenDrop(m: Labels, k: string, v: Shown, drop: string)
    ensures k != drop ==> m[k := v] - {drop} == (m - {drop})[k := v]
    ensures k == drop && k !in m ==> m[k := v] - {drop} == m
  {
  }

  lemma {:induction false} WithoutReads(pairs: seq<Pair>, i: nat)
    requires i < |pairs| && forall j :: 0 <= j < |pairs| && j != i ==> Value(pairs[j].key) != Value(pairs[i].key)
    ensures MapLabels(Without(pairs, i)) == MapLabels(pairs) - {Value(pairs[i].key)}
  {
    var n := |pairs| - 1;
    var front, after := pairs[..n], Without(pairs, i);
    var k, v := Value(pairs[n].key), Show(pairs[n].val);
    UpdateThenDrop(MapLabels(front), k, v, Value(pairs[i].key));
    if i == n {
      assert after == front;
      MapLabelsHas(front, k);
    } else {
      assert front[i] == pairs[i];
      WithoutReads(front, i);
      assert after[..n - 1] == Without(front, i) && after[n - 1] == pairs[n];
      assert MapLabels(after) == MapLabels(Without(front, i))[k := v];
    }
  }

  // ---- The labels field of a service -----------------------------------------------------------

  lemma IndexIs(pairs: seq<Pair>, key: string, i: nat)
    requires i < |pairs| && Value(pairs[i].key) == key && forall j :: 0 <= j < i ==> Value(pairs[j].key) != key
    ensures IndexOf(pairs, key) == Some(i)
  {
    assert pairs[i] in pairs;
  }

  lemma IndexAfterAppend(pairs: seq<Pair>, p: Pair, key: string)
    ensures IndexOf(pairs + [p], key) ==
            if IndexOf(pairs, key).Some? then IndexOf(pairs, key)
            else if Value(p.key) == key then Some(|pairs|) else None
  {
    if IndexOf(pairs, key).Some? {
      IndexIs(pairs + [p], key, IndexOf(pairs, key).value);
    } else {
      assert forall i :: 0 <= i < |pairs| ==> pairs[i] in pairs;
      if Value(p.key) == key { IndexIs(pairs + [p], key, |pairs|); }
    }
  }

  lemma IndexAfterWithout(pairs: seq<Pair>, i: nat, key: string)
    requires i < |pairs| && Value(pairs[i].key) != key
    ensures IndexOf(Without(pairs, i), key) ==
            match IndexOf(pairs, key) case None => None case Some(j) => Some(if j < i then j else j - 1)
  {
    var after := Without(pairs, i);
    match IndexOf(pairs, key)
    case Some(j) => IndexIs(after, key, if j < i then j else j - 1);
    case None =>
      forall p | p in after ensures Value(p.key) != key {
        var j :| 0 <= j < |after| && after[j] == p;
        assert p == pairs[if j < i then j else j + 1] && p in pairs;
      }
  }

  /** A field that was written is read back. */
  lemma FieldRead(svc: Node, field: string, v: Option<Node>)
    requires svc.Mapping? && UniqueKeys(svc.pairs)
    ensures Find(WithField(svc, field, v), field) == v
  {
    match (IndexOf(svc.pairs, field), v)
    case (Some(i), Some(n)) => SameKeysSameIndex(svc.pairs, SetVal(svc.pairs, i, n), field);
    case (Some(i), None) =>
      WithoutUnique(svc.pairs, i);
    case (None, Some(n)) => IndexAfterAppend(svc.pairs, Pair(Str(field), n), field);
    case (None, None) =>
  }

  /** Writing one field leaves every other as it was. */
  lemma OtherFieldKept(svc: Node, field: string, v: Option<Node>, other: string)
    requires svc.Mapping? && other != field
    ensures Find(WithField(svc, field, v), other) == Find(svc, other)
  {
    match (IndexOf(svc.pairs, field), v)
    case (Some(i), Some(n)) => SameKeysSameIndex(svc.pairs, SetVal(svc.pairs, i, n), other);
    case (Some(i), None) => IndexAfterWithout(svc.pairs, i, other);
    case (None, Some(n)) => IndexAfterAppend(svc.pairs, Pair(Str(field), n), other);
    case (None, None) =>
  }

  // ---- One service --------------------------------------------------------------------------------

  /** YAML forbids a mapping to repeat a key, and the decoder refuses one that does. */
  ghost predicate Decodable(svc: Node) {
    && svc.Mapping? && UniqueKeys(svc.pairs)
    && (Find(svc, "labels").Some? && Find(svc, "labels").value.Mapping? ==> UniqueKeys(Find(svc, "labels").value.pairs))
  }

  /** When a label set on the service is what reading it yields. */
  predicate Settable(field: Option<Node>, key: string, value: string) {
    match field
    case Some(Mapping(pairs)) => StringKeys(pairs)
    case Some(Sequence(items)) => '=' !in key && NotShadowed(items, key, value)
    case _ => true
  }

  lemma FreshReads(key: string, value: string)
    ensures LabelsOf(Some(FreshLabels(key, value))) == map[key := Verbatim(value)]
  {
    var single := FreshLabels(key, value).pairs;
    assert MapLabels(single[..0]) == map[] && StringKeys(single);
    assert MapLabels(single) == MapLabels(single[..0])[key := Verbatim(value)];
  }

  lemma EditReads(labels: Node, key: string, value: string)
    requires !labels.Alias? && value != "" && (labels.Mapping? ==> UniqueKeys(labels.pairs))
    ensures LabelsOf(EditLabels(labels, key, value)) == LabelsOf(Some(labels))[key := Verbatim(value)]
            <==> Settable(Some(labels), key, value)
  {
    assert key in LabelsOf(Some(labels))[key := Verbatim(value)];
    match labels
    case Mapping(pairs) =>
      PutPairReads(pairs, key, value);
      PutPairKeys(pairs, key, value);
    case Sequence(items) => SeqSetReads(items, key, value);
    case Scalar(_, _, _) => FreshReads(key, value);
  }

  /** Set then read: the label has the new value and every other label is as before, exactly
      when the field is settable; only an aliased labels field is refused. */
  lemma SetLabelReads(svc: Node, key: string, value: string)
    requires Decodable(svc) && value != ""
    ensures SetOnService(svc, key, value).Ok? <==> !(Find(svc, "labels").Some? && Find(svc, "labels").value.Alias?)
    ensures SetOnService(svc, key, value).Ok? ==>
              (ServiceLabels(SetOnService(svc, key, value).tree) == ServiceLabels(svc)[key := Verbatim(value)] <==>
               Settable(Find(svc, "labels"), key, value))
  {
    var field := Find(svc, "labels");
    if field.None? {
      FreshReads(key, value);
      FieldRead(svc, "labels", Some(FreshLabels(key, value)));
    } else if !field.value.Alias? {
      EditReads(field.value, key, value);
      FieldRead(svc, "labels", EditLabels(field.value, key, value));
    }
  }

  /** Setting a label changes no key of the mapping, and adds at most a string. */
  lemma PutPairKeys(pairs: seq<Pair>, key: string, value: string)
    ensures StringKeys(PutPair(pairs, key, value)) <==> StringKeys(pairs)
  {
    var after := PutPair(pairs, key, value);
    if StringKeys(pairs) {
      forall p | p in after ensures IsString(p.key) {
        var i :| 0 <= i < |after| && after[i] == p;
        if i < |pairs| { assert after[i].key == pairs[i].key && pairs[i] in pairs; }
      }
    } else {
      var p :| p in pairs && !IsString(p.key);
      var i :| 0 <= i < |pairs| && pairs[i] == p;
      assert after[i] in after && after[i].key == p.key;
    }
  }

  /** A label edit leaves every other key of the service as it was. */
  lemma OtherServiceKeysKept(svc: Node, key: string, value: string, other: string)
    requires svc.Mapping? && other != "labels" && SetOnService(svc, key, value).Ok?
    ensures SetOnService(svc, key, value).tree.Mapping?
    ensures Find(SetOnService(svc, key, value).tree, other) == Find(svc, other)
  {
    var field := Find(svc, "labels");
    if field.None? {
      OtherFieldKept(svc, "labels", if value == "" then None else Some(FreshLabels(key, value)), other);
    } else {
      OtherFieldKept(svc, "labels", EditLabels(field.value, key, value), other);
    }
  }

  /** When removing a label removes it and nothing else. */
  predicate Removable(field: Option<Node>, key: string) {
    match field
    case Some(Mapping(pairs)) => StringKeys(pairs) || !StringKeys(DropPair(pairs, key)) || DropPair(pairs, key) == []
    case Some(Sequence(items)) => DropIsClean(items, key)
    case _ => true
  }

  /** Removed then read: the label is absent and every other label is as before. */
  lemma RemoveLabelReads(svc: Node, key: string)
    requires Decodable(svc)
    ensures SetOnService(svc, key, "").Ok? ==>
              (ServiceLabels(SetOnService(svc, key, "").tree) == ServiceLabels(svc) - {key} <==>
               Removable(Find(svc, "labels"), key))
  {
    var field := Find(svc, "labels");
    if field.Some? && !field.value.Alias? {
      DropReads(field.value, key);
      FieldRead(svc, "labels", EditLabels(field.value, key, ""));
    }
  }

  lemma DropReads(labels: Node, key: string)
    requires !labels.Alias? && (labels.Mapping? ==> UniqueKeys(labels.pairs))
    ensures LabelsOf(EditLabels(labels, key, "")) == LabelsOf(Some(labels)) - {key} <==> Removable(Some(labels), key)
  {
    match labels
    case Mapping(pairs) => DropMapReads(pairs, key);
    case Sequence(items) => SeqDropReads(items, key);
    case Scalar(_, _, _) =>
  }

  lemma DropPairKeys(pairs: seq<Pair>, key: string)
    ensures StringKeys(pairs) ==> StringKeys(DropPair(pairs, key))
  {
    forall p | p in DropPair(pairs, key) ensures p in pairs {
      var i :| 0 <= i < |DropPair(pairs, key)| && DropPair(pairs, key)[i] == p;
    }
  }

  lemma DropMapReads(pairs: seq<Pair>, key: string)
    requires UniqueKeys(pairs)
    ensures LabelsOf(EditLabels(Mapping(pairs), key, "")) == LabelsOf(Some(Mapping(pairs))) - {key} <==>
            StringKeys(pairs) || !StringKeys(DropPair(pairs, key)) || DropPair(pairs, key) == []
  {
    var after := DropPair(pairs, key);
    DropPairReads(pairs, key);
    DropPairKeys(pairs, key);
    if after != [] { MapLabelsAt(after, 0); }
  }

  /** The field does not have the label: no key of the mapping, no entry of the list. */
  predicate LacksLabel(field: Option<Node>, key: string) {
    match field
    case Some(Mapping(pairs)) => IndexOf(pairs, key).None?
    case Some(Sequence(items)) => ItemIndex(items, key).None?
    case Some(Alias(_)) => false
    case _ => true
  }

  /** Labels that hold nothing: an empty mapping or list, or a scalar such as null. */
  predicate HoldsNothing(field: Option<Node>) {
    match field
    case Some(Mapping(pairs)) => pairs == []
    case Some(Sequence(items)) => items == []
    case Some(Scalar(_, _, _)) => true
    case _ => false
  }

  lemma WithoutLast<T>(s: seq<T>, x: T)
    ensures Without(s + [x], |s|) == s
  {
  }

  lemma ItemIndexAppend(items: seq<Node>, key: string, value: string)
    requires ItemIndex(items, key).None?
    ensures ItemIndex(items + [Str(key + "=" + value)], key) == Some(|items|)
  {
    var after := items + [Str(key + "=" + value)];
    assert after[|items|] in after && Matches(after[|items|], key);
    assert forall i :: 0 <= i < |items| ==> after[i] == items[i] && items[i] in items;
  }

  /** Setting and removing on the field alone. */
  lemma EditUndone(labels: Node, key: string, value: string)
    requires LacksLabel(Some(labels), key) && value != ""
    ensures EditLabels(labels, key, value).Some? && !EditLabels(labels, key, value).value.Alias?
    ensures EditLabels(EditLabels(labels, key, value).value, key, "") ==
            if HoldsNothing(Some(labels)) then None else Some(labels)
  {
    match labels
    case Mapping(pairs) =>
      IndexAfterAppend(pairs, Pair(Str(key), Quoted(value)), key);
      WithoutLast(pairs, Pair(Str(key), Quoted(value)));
    case Sequence(items) =>
      ItemIndexAppend(items, key, value);
      WithoutLast(items, Str(key + "=" + value));
    case Scalar(_, _, _) =>
      WithoutLast([], Pair(Str(key), Quoted(value)));
      assert [] + [Pair(Str(key), Quoted(value))] == FreshLabels(key, value).pairs;
  }

  lemma FieldOverwritten(svc: Node, field: string, v: Node, w: Option<Node>)
    requires svc.Mapping? && Find(svc, field).Some?
    ensures WithField(WithField(svc, field, Some(v)), field, w) == WithField(svc, field, w)
  {
    var i := IndexOf(svc.pairs, field).value;
    var once := SetVal(svc.pairs, i, v);
    SameKeysSameIndex(svc.pairs, once, field);
    if w.Some? {
      assert SetVal(once, i, w.value) == SetVal(svc.pairs, i, w.value);
    } else {
      assert Without(once, i) == Without(svc.pairs, i);
    }
  }

  lemma FieldAddedAndDropped(svc: Node, field: string, v: Node)
    requires svc.Mapping? && Find(svc, field).None?
    ensures WithField(WithField(svc, field, Some(v)), field, None) == svc
  {
    IndexAfterAppend(svc.pairs, Pair(Str(field), v), field);
    WithoutLast(svc.pairs, Pair(Str(field), v));
  }

  lemma FieldKept(svc: Node, field: string)
    requires svc.Mapping? && Find(svc, field).Some?
    ensures WithField(svc, field, Find(svc, field)) == svc
  {
    var i := IndexOf(svc.pairs, field).value;
    assert SetVal(svc.pairs, i, svc.pairs[i].val) == svc.pairs;
  }

  /** Setting a label that was not there and removing it again gives back the same service;
      only a labels field that held nothing is gone. */
  lemma SetThenRemove(svc: Node, key: string, value: string)
    requires Decodable(svc) && value != "" && LacksLabel(Find(svc, "labels"), key)
    ensures SetOnService(svc, key, value).Ok?
    ensures var set1 := SetOnService(svc, key, value).tree;
            && set1.Mapping?
            && SetOnService(set1, key, "") ==
               Ok(if HoldsNothing(Find(svc, "labels")) then WithField(svc, "labels", None) else svc)
  {
    match Find(svc, "labels")
    case None =>
      var added := FreshLabels(key, value);
      FieldRead(svc, "labels", Some(added));
      WithoutLast([], Pair(Str(key), Quoted(value)));
      assert EditLabels(added, key, "") == None;
      FieldAddedAndDropped(svc, "labels", added);
    case Some(labels) =>
      var edited := EditLabels(labels, key, value);
      EditUndone(labels, key, value);
      FieldRead(svc, "labels", edited);
      FieldOverwritten(svc, "labels", edited.value, EditLabels(edited.value, key, ""));
      FieldKept(svc, "labels");
  }

  // ---- The whole file -----------------------------------------------------------------------------

  ghost predicate Edited(before: Node, now: Node, key: string, value: string) {
    if before.Mapping? then SetOnService(before, key, value) == Ok(now) else now == before
  }

  ghost predicate AliasedLabels(svc: Node) {
    svc.Mapping? && Find(svc, "labels").Some? && Find(svc, "labels").value.Alias?
  }

  lemma {:induction false} EveryServiceEdited(services: seq<Pair>, key: string, value: string)
    ensures SetOnAll(services, key, value).Stopped? <==> exists i :: 0 <= i < |services| && AliasedLabels(services[i].val)
    ensures SetOnAll(services, key, value).AllDone? ==>
              var now := SetOnAll(services, key, value).pairs;
              SameKeys(services, now) && forall i :: 0 <= i < |services| ==> Edited(services[i].val, now[i].val, key, value)
  {
    if services != [] {
      EveryServiceEdited(services[1..], key, value);
      assert forall i :: 0 < i < |services| ==> services[1..][i - 1] == services[i];
      if SetOnAll(services, key, value).AllDone? {
        var now := SetOnAll(services, key, value).pairs;
        assert forall i :: 0 < i < |now| ==> now[i] == now[1..][i - 1];
      }
    }
  }

  /** A label set on a file is set on every service that is a mapping; services of another
      kind, all keys and everything outside services are as before. It is refused as a whole
      when one service has aliased labels. */
  lemma SetServiceLabelEdits(root: Node, key: string, value: string)
    requires key != "" && Find(root, "services").Some? && Find(root, "services").value.Mapping?
    requires Find(root, "services").value.pairs != []
    ensures var services := Find(root, "services").value.pairs;
            var r := SetServiceLabel(root, key, value);
            && (r.Err? <==> exists i :: 0 <= i < |services| && AliasedLabels(services[i].val))
            && (r.Ok? ==>
                 && r.tree.Mapping? && SameKeys(root.pairs, r.tree.pairs)
                 && (forall other :: other != "services" ==> Find(r.tree, other) == Find(root, other))
                 && Find(r.tree, "services").Some? && Find(r.tree, "services").value.Mapping?
                 && SameKeys(services, Find(r.tree, "services").value.pairs)
                 && forall i :: 0 <= i < |services| ==>
                      Edited(services[i].val, Find(r.tree, "services").value.pairs[i].val, key, value))
  {
    var services := Find(root, "services").value.pairs;
    EveryServiceEdited(services, key, value);
    match SetOnAll(services, key, value)
    case Stopped(_) =>
    case AllDone(pairs) =>
      var i := IndexOf(root.pairs, "services").value;
      var now := SetVal(root.pairs, i, Mapping(pairs));
      forall other ensures IndexOf(now, other) == IndexOf(root.pairs, other) { SameKeysSameIndex(root.pairs, now, other); }
  }

  // ---- What entries, fields and errors are, in full ------------------------------------------------

  /** A list entry is its key, '=' and its value, cut at the first '='; without one it is all key. */
  lemma EntryInFull(s: string)
    ensures '=' !in KeyPart(s)
    ensures '=' in s ==> s == KeyPart(s) + "=" + ValuePart(s)
    ensures '=' !in s ==> KeyPart(s) == s && ValuePart(s) == ""
  {
    var i := FirstEq(s);
    assert forall j :: 0 <= j < i ==> s[..i][j] == s[j];
    if i < |s| {
      assert s == s[..i] + [s[i]] + s[i + 1..];
    }
  }

  /** What is read from a mapping: its keys with what they show, or nothing at all when one of
      them is not a string. */
  lemma MappingInFull(pairs: seq<Pair>, i: nat, k: string)
    requires UniqueKeys(pairs) && i < |pairs| && forall p :: p in pairs ==> p.key.Scalar? && p.key.tag == "!!str"
    ensures k in LabelsOf(Some(Mapping(pairs))) <==> exists j :: 0 <= j < |pairs| && pairs[j].key.text == k
    ensures var labels := LabelsOf(Some(Mapping(pairs)));
            && pairs[i] in pairs && pairs[i].key.text in labels
            && labels[pairs[i].key.text] == if pairs[i].val.Scalar? && pairs[i].val.tag == "!!str"
                                            then Verbatim(pairs[i].val.text) else Rendered(pairs[i].val)
  {
    assert StringKeys(pairs);
    assert forall j :: 0 <= j < |pairs| ==> pairs[j] in pairs;
    MapLabelsHas(pairs, k);
    MapLabelsAt(pairs, i);
  }

  lemma OddKeyReadsNothing(pairs: seq<Pair>, p: Pair)
    requires p in pairs && !(p.key.Scalar? && p.key.tag == "!!str")
    ensures LabelsOf(Some(Mapping(pairs))) == map[]
  {
  }

  /** The entry that a list edit rewrites: the first scalar that is the key or begins with it
      and '='. All others stay; without one the new entry comes last. */
  lemma ListEditInFull(items: seq<Node>, key: string, value: string, i: nat)
    requires i < |items| && items[i].Scalar? && (items[i].text == key || key + "=" <= items[i].text)
    requires forall j :: 0 <= j < i && items[j].Scalar? ==> items[j].text != key && !(key + "=" <= items[j].text)
    ensures PutItem(items, key, value) == items[i := Scalar("!!str", key + "=" + value, items[i].quoted)]
    ensures DropItem(items, key) == items[..i] + items[i + 1..]
  {
    assert items[i] in items && Matches(items[i], key);
    assert forall j :: 0 <= j < i ==> !Matches(items[j], key);
  }

  lemma ListAppendInFull(items: seq<Node>, key: string, value: string)
    requires forall n :: n in items && n.Scalar? ==> n.text != key && !(key + "=" <= n.text)
    ensures PutItem(items, key, value) == items + [Scalar("!!str", key + "=" + value, false)]
    ensures DropItem(items, key) == items
  {
    forall i | 0 <= i < |items| ensures !Matches(items[i], key) {
      assert items[i] in items;
    }
  }

  /** A value set on labels that are a mapping, or not yet there, is written as a quoted string. */
  lemma ValueIsQuoted(svc: Node, key: string, value: string)
    requires svc.Mapping? && UniqueKeys(svc.pairs) && value != ""
    requires Find(svc, "labels").Some? ==> Find(svc, "labels").value.Mapping? || Find(svc, "labels").value.Scalar?
    ensures var r := SetOnService(svc, key, value);
            && r.Ok? && Find(r.tree, "labels").Some?
            && Find(Find(r.tree, "labels").value, key) == Some(Scalar("!!str", value, true))
  {
    var field := Find(svc, "labels");
    if field.None? {
      FieldRead(svc, "labels", Some(FreshLabels(key, value)));
    } else {
      FieldRead(svc, "labels", EditLabels(field.value, key, value));
      if field.value.Mapping? {
        var pairs := field.value.pairs;
        match IndexOf(pairs, key)
        case Some(i) => SameKeysSameIndex(pairs, SetVal(pairs, i, Quoted(value)), key);
        case None => IndexAfterAppend(pairs, Pair(Str(key), Quoted(value)), key);
      }
    }
  }

  /** Which files are refused, and why. */
  lemma RefusalsInFull(root: Node, key: string, value: string)
    ensures var services := Find(root, "services");
            SetServiceLabel(root, key, value).Err? <==>
            || key == "" || !root.Mapping? || services.None? || !services.value.Mapping? || services.value.pairs == []
            || exists i :: 0 <= i < |services.value.pairs| && AliasedLabels(services.value.pairs[i].val)
    ensures SetServiceLabel(root, key, value) == Err(EmptyArgument) <==> key == ""
    ensures SetServiceLabel(root, key, value) == Err(RootNotMapping) <==> key != "" && !root.Mapping?
    ensures SetServiceLabel(root, key, value) == Err(NoServices) <==>
            && key != "" && root.Mapping?
            && (Find(root, "services").None? || Find(root, "services").value == Mapping([]))
    ensures SetServiceLabel(root, key, value) == Err(ServicesNotMapping) <==>
            key != "" && Find(root, "services").Some? && !Find(root, "services").value.Mapping?
  {
    if Find(root, "services").Some? && Find(root, "services").value.Mapping? {
      EveryServiceEdited(Find(root, "services").value.pairs, key, value);
      StoppedByAlias(Find(root, "services").value.pairs, key, value);
    }
  }

  lemma {:induction false} StoppedByAlias(services: seq<Pair>, key: string, value: string)
    ensures SetOnAll(services, key, value).Stopped? ==> SetOnAll(services, key, value).error == UnsupportedLabels
  {
    if services != [] { StoppedByAlias(services[1..], key, value); }
  }

  // ---- Where set then read fails ------------------------------------------------------------------

  /** A list that names a label twice: the editor rewrites the first entry, the reader takes
      the last. */
  lemma SecondEntryShadows()
    ensures var items := [Str("a=1"), Str("a=2")];
            SeqLabels(PutItem(items, "a", "3")) != SeqLabels(items)["a" := Verbatim("3")]
  {
    var items := [Str("a=1"), Str("a=2")];
    var k := "a";
    assert Matches(items[0], k);
    assert ItemIndex(items, k) == Some(0);
    FirstEqOfJoin("a", "2");
    assert "a" + "=" + "2" == "a=2";
    assert EntryFor(items[1], k);
    assert LastFor(items, k) == Some(1);
    SeqSetReads(items, k, "3");
  }
}
