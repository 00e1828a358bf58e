/** The rollback rewrite of a compose file: RewriteImageDigest in
    internal/docker/compose.go and the pin loop of rollback in
    internal/docker/auto_updater.go. */
module ImagePinning {
  import opened Collections
  import opened ComposeTree
  import opened ImageRefs

  // ---- One service ---------------------------------------------------------------

  /** Pins the image of a service node. */
  function PinImage(svc: Node, digest: string): Result {
    if !svc.Mapping? then Err(ServiceNotMapping)
    else
      match IndexOf(svc.pairs, "image")
      case None => Err(NoImage)
      case Some(i) =>
        var image := svc.pairs[i].val;
        if !image.Scalar? then Err(ImageNotScalar)
        else if SplitImageRepo(image.text) == "" then Err(EmptyImage)
        else Ok(Mapping(SetVal(svc.pairs, i, Str(Pinned(image.text, digest)))))
  }

  function RewriteImageDigest(root: Node, service: string, digest: string): Result {
    if service == "" || digest == "" then Err(EmptyArgument)
    else if !root.Mapping? then Err(RootNotMapping)
    else
      match IndexOf(root.pairs, "services")
      case None => Err(NoServices)
      case Some(s) =>
        var services := root.pairs[s].val;
        if !services.Mapping? then Err(NoServices)
        else
          match IndexOf(services.pairs, service)
          case None => Err(NoSuchService)
          case Some(v) =>
            match PinImage(services.pairs[v].val, digest)
            case Err(e) => Err(e)
            case Ok(svc) => Ok(Mapping(SetVal(root.pairs, s, Mapping(SetVal(services.pairs, v, svc)))))
  }

  // ---- All services at once, independent of any order ------------------------------

  type Digests = map<string, string>

  function DigestOf(digests: Digests, name: string): (d: string)
    ensures if name in digests then d == digests[name] else d == ""
  {
    if name in digests then digests[name] else ""
  }

  /** Services that get a pin: those with a captured digest. */
  function Wanted(names: set<string>, digests: Digests): (r: set<string>)
    ensures forall n :: n in r <==> n in names && n in digests && digests[n] != ""
  {
    set n | n in names && DigestOf(digests, n) != ""
  }

  function PinPair(pairs: seq<Pair>, i: nat, want: set<string>, digests: Digests): Pair
    requires i < |pairs|
  {
    var name := Value(pairs[i].key);
    var p := PinImage(pairs[i].val, DigestOf(digests, name));
    if name in want && IndexOf(pairs, name) == Some(i) && p.Ok? then Pair(pairs[i].key, p.tree) else pairs[i]
  }

  function PinPairs(pairs: seq<Pair>, want: set<string>, digests: Digests): (r: seq<Pair>)
    ensures |r| == |pairs| && forall i :: 0 <= i < |r| ==> r[i] == PinPair(pairs, i, want, digests)
  {
    seq(|pairs|, i requires 0 <= i < |pairs| => PinPair(pairs, i, want, digests))
  }

  /** The compose file with every wanted service pinned and nothing else touched. */
  function PinnedTree(root: Node, want: set<string>, digests: Digests): Node {
    if !root.Mapping? then root
    else
      match IndexOf(root.pairs, "services")
      case None => root
      case Some(s) =>
        var services := root.pairs[s].val;
        if !services.Mapping? then root
        else Mapping(SetVal(root.pairs, s, Mapping(PinPairs(services.pairs, want, digests))))
  }

  function ServicePairs(root: Node): seq<Pair> {
    match Find(root, "services")
    case Some(Mapping(pairs)) => pairs
    case _ => []
  }

  function Service(root: Node, name: string): Option<Node> {
    Find(Mapping(ServicePairs(root)), name)
  }

  /** The service is there with an image that splits into a repository. */
  predicate Pinnable(root: Node, name: string, digest: string) {
    && name != "" && digest != ""
    && Service(root, name).Some? && Service(root, name).value.Mapping?
    && Find(Service(root, name).value, "image").Some? && Find(Service(root, name).value, "image").value.Scalar?
    && SplitImageRepo(Find(Service(root, name).value, "image").value.text) != ""
  }

  /** The rewrite succeeds exactly for those, and otherwise says what is missing. */
  lemma RewriteOkIff(root: Node, name: string, digest: string)
    ensures RewriteImageDigest(root, name, digest).Ok? <==> Pinnable(root, name, digest)
    ensures var r := RewriteImageDigest(root, name, digest);
            && (r == Err(EmptyArgument) <==> name == "" || digest == "")
            && (r == Err(NoSuchService) ==> Service(root, name).None?)
            && (r == Err(ServiceNotMapping) ==> Service(root, name).Some? && !Service(root, name).value.Mapping?)
            && (r == Err(NoImage) ==> Service(root, name).Some? && Find(Service(root, name).value, "image").None?)
  {
  }

  ghost predicate AllPinnable(root: Node, want: set<string>, digests: Digests) {
    forall n :: n in want ==> Pinnable(root, n, DigestOf(digests, n))
  }

  lemma NothingWanted(root: Node, digests: Digests)
    ensures PinnedTree(root, {}, digests) == root
  {
    if root.Mapping? && IndexOf(root.pairs, "services").Some? {
      var s := IndexOf(root.pairs, "services").value;
      var services := root.pairs[s].val;
      if services.Mapping? {
        assert PinPairs(services.pairs, {}, digests) == services.pairs;
        assert SetVal(root.pairs, s, services) == root.pairs;
      }
    }
  }

  lemma KeysKept(pairs: seq<Pair>, want: set<string>, digests: Digests, name: string)
    ensures IndexOf(PinPairs(pairs, want, digests), name) == IndexOf(pairs, name)
  {
    SameKeysSameIndex(PinPairs(pairs, want, digests), pairs, name);
  }

  /** One rewrite after some pins: same success as on the original, one more pin. */
  lemma RewriteAfterPins(root: Node, done: set<string>, digests: Digests, name: string)
    requires name !in done && DigestOf(digests, name) != ""
    ensures var d := DigestOf(digests, name);
            var r := RewriteImageDigest(PinnedTree(root, done, digests), name, d);
            && (r.Ok? <==> Pinnable(root, name, d))
            && (r.Ok? ==> r.tree == PinnedTree(root, done + {name}, digests))
  {
    RewriteOkIff(root, name, DigestOf(digests, name));
    if root.Mapping? && IndexOf(root.pairs, "services").Some? {
      var s := IndexOf(root.pairs, "services").value;
      var services := root.pairs[s].val;
      if services.Mapping? {
        var d, pairs := DigestOf(digests, name), services.pairs;
        var now := PinPairs(pairs, done, digests);
        var tree := PinnedTree(root, done, digests);
        SameKeysSameIndex(tree.pairs, root.pairs, "services");
        KeysKept(pairs, done, digests, name);
        if IndexOf(pairs, name).Some? {
          var v := IndexOf(pairs, name).value;
          assert now[v] == pairs[v];
          var p := PinImage(pairs[v].val, d);
          if p.Ok? && name != "" {
            PinOneMore(pairs, done, digests, name);
            var next := PinPairs(pairs, done + {name}, digests);
            assert SetVal(tree.pairs, s, Mapping(next)) == SetVal(root.pairs, s, Mapping(next));
          }
        }
      }
    }
  }

  lemma PinOneMore(pairs: seq<Pair>, done: set<string>, digests: Digests, name: string)
    requires name !in done && IndexOf(pairs, name).Some?
    requires PinImage(pairs[IndexOf(pairs, name).value].val, DigestOf(digests, name)).Ok?
    ensures var v := IndexOf(pairs, name).value;
            SetVal(PinPairs(pairs, done, digests), v, PinImage(pairs[v].val, DigestOf(digests, name)).tree)
            == PinPairs(pairs, done + {name}, digests)
  {
    var v := IndexOf(pairs, name).value;
    var svc := PinImage(pairs[v].val, DigestOf(digests, name)).tree;
    var a, b := SetVal(PinPairs(pairs, done, digests), v, svc), PinPairs(pairs, done + {name}, digests);
    forall i | 0 <= i < |pairs| ensures a[i] == b[i] {
      if i != v && Value(pairs[i].key) == name {
        assert IndexOf(pairs, name) != Some(i);
      }
    }
  }

  /** What a pin does to one service: image becomes repo@digest, the rest stays. */
  lemma PinnedService(root: Node, want: set<string>, digests: Digests, name: string)
    requires AllPinnable(root, want, digests) && Service(root, name).Some?
    ensures var before, after := Service(root, name).value, Service(PinnedTree(root, want, digests), name);
            && after.Some?
            && (name !in want ==> after.value == before)
            && (name in want ==>
                  && Find(before, "image").Some? && Find(before, "image").value.Scalar?
                  && Find(after.value, "image")
                     == Some(Str(Pinned(Find(before, "image").value.text, DigestOf(digests, name))))
                  && forall k :: k != "image" ==> Find(after.value, k) == Find(before, k))
  {
    var s := IndexOf(root.pairs, "services").value;
    var pairs := ServicePairs(root);
    var tree := PinnedTree(root, want, digests);
    SameKeysSameIndex(tree.pairs, root.pairs, "services");
    KeysKept(pairs, want, digests, name);
    var v := IndexOf(pairs, name).value;
    if name in want {
      assert RewriteImageDigest(root, name, DigestOf(digests, name)).Ok?;
      ImageReplaced(pairs[v].val, DigestOf(digests, name));
    }
  }

  lemma ImageReplaced(svc: Node, digest: string)
    requires PinImage(svc, digest).Ok?
    ensures var out := PinImage(svc, digest).tree;
            && Find(svc, "image").Some? && Find(svc, "image").value.Scalar?
            && Find(out, "image") == Some(Str(Pinned(Find(svc, "image").value.text, digest)))
            && forall k :: k != "image" ==> Find(out, k) == Find(svc, k)
  {
    var out := PinImage(svc, digest).tree;
    forall k ensures IndexOf(out.pairs, k) == IndexOf(svc.pairs, k) {
      SameKeysSameIndex(out.pairs, svc.pairs, k);
    }
  }

  /** Everything outside the services mapping is left alone. */
  lemma OtherKeysKept(root: Node, want: set<string>, digests: Digests, key: string)
    requires key != "services"
    ensures Find(PinnedTree(root, want, digests), key) == Find(root, key)
  {
    var tree := PinnedTree(root, want, digests);
    if root.Mapping? {
      SameKeysSameIndex(tree.pairs, root.pairs, key);
    }
  }

  function ImageOf(root: Node, name: string): string {
    match Service(root, name)
    case None => ""
    case Some(svc) => match Find(svc, "image") case Some(Scalar(_, text, _)) => text case _ => ""
  }

  /** A second rollback of the rewritten file succeeds and changes nothing exactly when
      every wanted image has at most one colon in its last segment. */
  lemma PinAgainIff(root: Node, want: set<string>, digests: Digests)
    requires AllPinnable(root, want, digests)
    ensures var tree := PinnedTree(root, want, digests);
            AllPinnable(tree, want, digests) && PinnedTree(tree, want, digests) == tree
            <==> forall n :: n in want ==> SegmentColons(ImageOf(root, n)) <= 1
  {
    var tree := PinnedTree(root, want, digests);
    if want == {} {
      NothingWanted(root, digests);
    } else {
      var n0 :| n0 in want;
      assert RewriteImageDigest(root, n0, DigestOf(digests, n0)).Ok?;
      forall n | n in want
        ensures SegmentColons(ImageOf(root, n)) <= 1 <==> Settled(tree, n, DigestOf(digests, n))
      {
        SettledIff(root, want, digests, n);
      }
      if forall n :: n in want ==> Settled(tree, n, DigestOf(digests, n)) {
        AllSettled(tree, want, digests);
      } else if AllPinnable(tree, want, digests) && PinnedTree(tree, want, digests) == tree {
        forall n | n in want ensures Settled(tree, n, DigestOf(digests, n)) {
          FixedMeansSettled(tree, want, digests, n);
        }
      }
    }
  }

  /** Pinning this service (again) succeeds and leaves it as it is. */
  ghost predicate Settled(root: Node, name: string, digest: string) {
    && RewriteImageDigest(root, name, digest).Ok?
    && Service(root, name).Some?
    && PinImage(Service(root, name).value, digest) == Ok(Service(root, name).value)
  }

  lemma AllSettled(root: Node, want: set<string>, digests: Digests)
    requires forall n :: n in want ==> Settled(root, n, DigestOf(digests, n))
    ensures AllPinnable(root, want, digests) && PinnedTree(root, want, digests) == root
  {
    if root.Mapping? && IndexOf(root.pairs, "services").Some? {
      var s := IndexOf(root.pairs, "services").value;
      var services := root.pairs[s].val;
      if services.Mapping? {
        forall i | 0 <= i < |services.pairs| ensures PinPair(services.pairs, i, want, digests) == services.pairs[i] {
          var n := Value(services.pairs[i].key);
          if n in want { assert Settled(root, n, DigestOf(digests, n)); }
        }
        assert PinPairs(services.pairs, want, digests) == services.pairs;
        assert SetVal(root.pairs, s, services) == root.pairs;
      }
    }
  }

  lemma FixedMeansSettled(root: Node, want: set<string>, digests: Digests, name: string)
    requires AllPinnable(root, want, digests) && PinnedTree(root, want, digests) == root && name in want
    ensures Settled(root, name, DigestOf(digests, name))
  {
    assert RewriteImageDigest(root, name, DigestOf(digests, name)).Ok?;
    var pairs := ServicePairs(root);
    var v := IndexOf(pairs, name).value;
    assert PinPairs(pairs, want, digests) == pairs by {
      var s := IndexOf(root.pairs, "services").value;
      assert PinnedTree(root, want, digests).pairs[s].val == Mapping(PinPairs(pairs, want, digests));
    }
    assert PinPair(pairs, v, want, digests) == pairs[v];
  }

  lemma SettledIff(root: Node, want: set<string>, digests: Digests, name: string)
    requires AllPinnable(root, want, digests) && name in want
    ensures Settled(PinnedTree(root, want, digests), name, DigestOf(digests, name))
            <==> SegmentColons(ImageOf(root, name)) <= 1
  {
    var d, tree := DigestOf(digests, name), PinnedTree(root, want, digests);
    assert RewriteImageDigest(root, name, d).Ok?;
    var pairs := ServicePairs(root);
    var v := IndexOf(pairs, name).value;
    SameKeysSameIndex(tree.pairs, root.pairs, "services");
    KeysKept(pairs, want, digests, name);
    assert Service(root, name) == Some(pairs[v].val);
    assert Service(tree, name) == Some(PinImage(pairs[v].val, d).tree);
    PinImageTwice(pairs[v].val, d);
  }

  lemma PinImageTwice(svc: Node, digest: string)
    requires PinImage(svc, digest).Ok?
    ensures Find(svc, "image").Some? && Find(svc, "image").value.Scalar?
    ensures PinImage(PinImage(svc, digest).tree, digest) == PinImage(svc, digest)
            <==> SegmentColons(Find(svc, "image").value.text) <= 1
  {
    var i := IndexOf(svc.pairs, "image").value;
    var image, out := svc.pairs[i].val.text, PinImage(svc, digest).tree;
    var once := Pinned(image, digest);
    SameKeysSameIndex(out.pairs, svc.pairs, "image");
    PinTwiceIff(image, digest);
    assert |once| == |SplitImageRepo(image)| + 1 + |digest|;
    assert |Pinned(once, digest)| == |SplitImageRepo(once)| + 1 + |digest|;
    var again := SetVal(out.pairs, i, Str(Pinned(once, digest)));
    assert out.pairs[i].val == Str(once) && again[i].val == Str(Pinned(once, digest));
    if Pinned(once, digest) == once {
      assert again == out.pairs;
    }
  }

  // ---- The loop --------------------------------------------------------------------

  lemma WantedNext(names: set<string>, todo: set<string>, name: string, digests: Digests)
    requires name in names && name !in todo
    ensures Wanted(names - todo, digests)
            == Wanted(names - (todo + {name}), digests) + (if DigestOf(digests, name) != "" then {name} else {})
  {
    assert names - todo == (names - (todo + {name})) + {name};
  }

  lemma OneMorePinnable(root: Node, done: set<string>, digests: Digests, name: string)
    requires AllPinnable(root, done, digests) && Pinnable(root, name, DigestOf(digests, name))
    ensures AllPinnable(root, done + {name}, digests)
  {
  }

  /** Rewrites service by service, in whatever order the map range yields. */
  method PinServices(root: Node, names: set<string>, digests: Digests) returns (r: Result, pinned: nat)
    ensures r.Ok? <==> forall n :: n in names && n in digests && digests[n] != "" ==> Pinnable(root, n, digests[n])
    ensures r.Ok? ==> r.tree == PinnedTree(root, Wanted(names, digests), digests)
    ensures r.Ok? ==> pinned == |Wanted(names, digests)|
  {
    var rolled := root;
    pinned := 0;
    var todo := names;
    ghost var done: set<string> := {};
    NothingWanted(root, digests);
    while todo != {}
      invariant todo <= names && done == Wanted(names - todo, digests)
      invariant rolled == PinnedTree(root, done, digests) && pinned == |done|
      invariant AllPinnable(root, done, digests)
    {
      var name :| name in todo;
      assert todo == (todo - {name}) + {name};
      todo := todo - {name};
      var digest := DigestOf(digests, name);
      WantedNext(names, todo, name, digests);
      if digest != "" {
        RewriteAfterPins(root, done, digests, name);
        var next := RewriteImageDigest(rolled, name, digest);
        if next.Err? {
          assert name in Wanted(names, digests);
          return next, pinned;
        }
        OneMorePinnable(root, done, digests, name);
        done, rolled, pinned := done + {name}, next.tree, pinned + 1;
      }
    }
    assert names - todo == names;
    r := Ok(rolled);
  }
}
