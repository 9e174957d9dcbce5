/** The hash-based script policy of a static mount (static_csp.go). */
module Csp {
  import opened Text
  import opened Hosts

  /** A parsed document: elements with their attribute keys, text, and everything else. */
  datatype Node =
    | Element(tag: string, attrs: seq<string>, children: seq<Node>)
    | TextNode(text: string)
    | OtherNode(children: seq<Node>)

  function Kids(n: Node): seq<Node> {
    if n.TextNode? then [] else n.children
  }

  /** The nodes of a tree in document order. */
  function Preorder(n: Node): seq<Node>
    decreases n, |Kids(n)| + 1
  {
    [n] + PreorderKids(n, |Kids(n)|)
  }

  /** The trees of the first `k` children, one after the other. */
  function PreorderKids(n: Node, k: nat): seq<Node>
    requires k <= |Kids(n)|
    decreases n, k
  {
    if k == 0 then [] else PreorderKids(n, k - 1) + Preorder(Kids(n)[k - 1])
  }

  /** An inline event handler, which a hash cannot cover. */
  predicate IsHandler(key: string) {
    |key| > 2 && key[..2] == "on"
  }

  predicate HasHandler(n: Node) {
    n.Element? && exists i :: 0 <= i < |n.attrs| && IsHandler(n.attrs[i])
  }

  function TextOf(ns: seq<Node>): string {
    if ns == [] then ""
    else TextOf(ns[..|ns| - 1]) + (if ns[|ns| - 1].TextNode? then ns[|ns| - 1].text else "")
  }

  /** A script without `src` that has a body. */
  predicate IsInlineScript(n: Node) {
    n.Element? && n.tag == "script" && "src" !in n.attrs && TextOf(n.children) != ""
  }

  /** The hashes of the inline scripts among `ns`, in order. */
  function Hashes(hash: string -> string, ns: seq<Node>): seq<string> {
    if ns == [] then []
    else
      var last := ns[|ns| - 1];
      Hashes(hash, ns[..|ns| - 1]) + (if IsInlineScript(last) then [hash(TextOf(last.children))] else [])
  }

  /** Each value where it first occurs. */
  function FirstOccurrences<T(==)>(xs: seq<T>): seq<T> {
    if xs == [] then []
    else
      var rest, last := xs[..|xs| - 1], xs[|xs| - 1];
      FirstOccurrences(rest) + (if last in rest then [] else [last])
  }

  /** What the walk has gathered after the nodes `ns`. */
  function Gathered(hash: string -> string, ns: seq<Node>): seq<string> {
    FirstOccurrences(Hashes(hash, ns))
  }

  ghost predicate Clean(ns: seq<Node>) {
    forall i :: 0 <= i < |ns| ==> !HasHandler(ns[i])
  }

  lemma {:induction false} FirstOccurrencesMembers<T>(xs: seq<T>)
    ensures forall x :: x in FirstOccurrences(xs) <==> x in xs
    ensures forall i, j :: 0 <= i < j < |FirstOccurrences(xs)| ==> FirstOccurrences(xs)[i] != FirstOccurrences(xs)[j]
    decreases |xs|
  {
    if xs != [] {
      FirstOccurrencesMembers(xs[..|xs| - 1]);
      assert xs == xs[..|xs| - 1] + [xs[|xs| - 1]];
    }
  }

  /** `first` says where each gathered value first occurs; the positions rise, so the order is kept. */
  ghost predicate InOrderOfFirst<T>(xs: seq<T>, ys: seq<T>, first: seq<nat>) {
    && |first| == |ys|
    && (forall i :: 0 <= i < |ys| ==> first[i] < |xs| && xs[first[i]] == ys[i])
    && (forall i, k :: 0 <= i < |ys| && 0 <= k < first[i] ==> xs[k] != ys[i])
    && (forall i, j :: 0 <= i < j < |ys| ==> first[i] < first[j])
  }

  lemma InOrderWidens<T>(xs: seq<T>, ys: seq<T>, first: seq<nat>, x: T)
    requires InOrderOfFirst(xs, ys, first)
    ensures InOrderOfFirst(xs + [x], ys, first)
  {
    assert forall k :: 0 <= k < |xs| ==> (xs + [x])[k] == xs[k];
  }

  lemma InOrderAppends<T>(xs: seq<T>, ys: seq<T>, first: seq<nat>, x: T)
    requires InOrderOfFirst(xs, ys, first) && x !in xs
    ensures InOrderOfFirst(xs + [x], ys + [x], first + [|xs|])
  {
    InOrderWidens(xs, ys, first, x);
    assert forall k :: 0 <= k < |xs| ==> (xs + [x])[k] == xs[k];
    assert forall i :: 0 <= i < |ys| ==> (ys + [x])[i] == ys[i] && (first + [|xs|])[i] == first[i];
  }

  lemma {:induction false} FirstOccurrencesInOrder<T>(xs: seq<T>) returns (first: seq<nat>)
    ensures InOrderOfFirst(xs, FirstOccurrences(xs), first)
    decreases |xs|
  {
    if xs == [] {
      first := [];
    } else {
      var n := |xs| - 1;
      var rest := xs[..n];
      var before := FirstOccurrencesInOrder(rest);
      assert xs == rest + [xs[n]];
      InOrderWidens(rest, FirstOccurrences(rest), before, xs[n]);
      if xs[n] in rest {
        first := before;
      } else {
        InOrderAppends(rest, FirstOccurrences(rest), before, xs[n]);
        first := before + [n];
      }
    }
  }

  lemma HashesSnoc(hash: string -> string, ns: seq<Node>, n: Node)
    ensures Hashes(hash, ns + [n]) == if IsInlineScript(n) then Hashes(hash, ns) + [hash(TextOf(n.children))]
              else Hashes(hash, ns)
  {
    assert (ns + [n])[..|ns|] == ns;
  }

  lemma FirstOccurrencesSnoc<T>(xs: seq<T>, x: T)
    ensures FirstOccurrences(xs + [x]) == if x in FirstOccurrences(xs) then FirstOccurrences(xs)
              else FirstOccurrences(xs) + [x]
  {
    assert (xs + [x])[..|xs|] == xs;
    FirstOccurrencesMembers(xs);
  }

  // The walk.

  method InlineBody(n: Node) returns (body: string)
    requires n.Element?
    ensures body == TextOf(n.children)
  {
    body := "";
    for i := 0 to |n.children|
      invariant body == TextOf(n.children[..i])
    {
      assert n.children[..i + 1][..i] == n.children[..i];
      if n.children[i].TextNode? {
        body := body + n.children[i].text;
      }
    }
    assert n.children[..|n.children|] == n.children;
  }

  method FindsHandler(attrs: seq<string>) returns (found: bool)
    ensures found <==> exists i :: 0 <= i < |attrs| && IsHandler(attrs[i])
  {
    for i := 0 to |attrs|
      invariant forall k :: 0 <= k < i ==> !IsHandler(attrs[k])
    {
      if IsHandler(attrs[i]) {
        return true;
      }
    }
    return false;
  }

  /** The element part of one visit: the handler check and the hash of an inline script. */
  method Visit(hash: string -> string, n: Node, sources: seq<string>, ghost before: seq<Node>)
    returns (ok: bool, out: seq<string>)
    requires sources == Gathered(hash, before)
    ensures ok <==> !HasHandler(n)
    ensures ok ==> out == Gathered(hash, before + [n])
  {
    out := sources;
    HashesSnoc(hash, before, n);
    if n.Element? {
      var handler := FindsHandler(n.attrs);
      if handler {
        return false, out;
      }
      if n.tag == "script" && "src" !in n.attrs {
        var body := InlineBody(n);
        if |body| > 0 {
          var src := hash(body);
          FirstOccurrencesSnoc(Hashes(hash, before), src);
          if src !in out {
            out := out + [src];
          }
        }
      }
    }
    return true, out;
  }

  /**
   * The recursive `walk`: it goes through exactly when no element of the tree has an event
   * handler, and then it has gathered the hashes of the tree in document order, each once.
   */
  method Walk(hash: string -> string, n: Node, sources: seq<string>, ghost before: seq<Node>)
    returns (ok: bool, out: seq<string>)
    requires sources == Gathered(hash, before)
    ensures ok <==> Clean(Preorder(n))
    ensures ok ==> out == Gathered(hash, before + Preorder(n))
    decreases n, 1, 0
  {
    ok, out := Visit(hash, n, sources, before);
    TreeIsNodeThenKids(n, before);
    if ok {
      ok, out := WalkKids(hash, n, |Kids(n)|, out, before + [n]);
    }
  }

  /** The loop over the children, the first `k` of them. */
  method WalkKids(hash: string -> string, n: Node, k: nat, sources: seq<string>, ghost before: seq<Node>)
    returns (ok: bool, out: seq<string>)
    requires k <= |Kids(n)| && sources == Gathered(hash, before)
    ensures ok <==> Clean(PreorderKids(n, k))
    ensures ok ==> out == Gathered(hash, before + PreorderKids(n, k))
    decreases n, 0, k
  {
    ok, out := true, sources;
    ghost var visited: seq<Node> := [];
    JoinNothing(before);
    for i := 0 to k
      invariant ok && visited == PreorderKids(n, i) && Clean(visited)
      invariant out == Gathered(hash, before + visited)
    {
      ghost var tree := Preorder(Kids(n)[i]);
      KidsGrow(n, i, before);
      ok, out := Walk(hash, Kids(n)[i], out, before + visited);
      if !ok {
        DirtyKids(n, i, k);
        return;
      }
      visited := visited + tree;
    }
  }

  lemma JoinNothing(ns: seq<Node>)
    ensures ns + [] == ns
  {
  }

  lemma TreeIsNodeThenKids(n: Node, before: seq<Node>)
    ensures before + Preorder(n) == before + [n] + PreorderKids(n, |Kids(n)|)
    ensures Clean(Preorder(n)) <==> !HasHandler(n) && Clean(PreorderKids(n, |Kids(n)|))
  {
    CleanJoin([n], PreorderKids(n, |Kids(n)|));
    assert [n][0] == n;
  }

  lemma KidsGrow(n: Node, i: nat, before: seq<Node>)
    requires i < |Kids(n)|
    ensures PreorderKids(n, i) + Preorder(Kids(n)[i]) == PreorderKids(n, i + 1)
    ensures before + PreorderKids(n, i) + Preorder(Kids(n)[i]) == before + PreorderKids(n, i + 1)
    ensures Clean(PreorderKids(n, i + 1)) <==> Clean(PreorderKids(n, i)) && Clean(Preorder(Kids(n)[i]))
  {
    CleanJoin(PreorderKids(n, i), Preorder(Kids(n)[i]));
  }

  lemma CleanJoin(a: seq<Node>, b: seq<Node>)
    ensures Clean(a + b) <==> Clean(a) && Clean(b)
  {
    if Clean(a + b) {
      forall i | 0 <= i < |a| ensures !HasHandler(a[i]) {
        assert (a + b)[i] == a[i];
      }
      forall i | 0 <= i < |b| ensures !HasHandler(b[i]) {
        assert (a + b)[|a| + i] == b[i];
      }
    }
  }

  lemma {:induction false} DirtyKids(n: Node, i: nat, k: nat)
    requires i < k <= |Kids(n)| && !Clean(Preorder(Kids(n)[i]))
    ensures !Clean(PreorderKids(n, k))
    decreases k
  {
    CleanJoin(PreorderKids(n, k - 1), Preorder(Kids(n)[k - 1]));
    if i < k - 1 {
      DirtyKids(n, i, k - 1);
    }
  }

  /** The index document of a mount. */
  datatype Index = NoIndex | Unparsable | Parsed(doc: Node)

  ghost predicate Hashable(index: Index) {
    index.Parsed? && Clean(Preorder(index.doc))
  }

  /**
   * `inlineScriptCSP`: sources exactly when a hash can cover the document, and then the hashes of
   * all non-empty inline scripts, none twice, in document order.
   */
  method InlineScriptCsp(hash: string -> string, index: Index) returns (sources: Option<seq<string>>)
    ensures sources.Some? <==> Hashable(index)
    ensures sources.Some? ==> sources.value == Gathered(hash, Preorder(index.doc))
    ensures sources.Some? ==> forall src :: src in sources.value <==> src in Hashes(hash, Preorder(index.doc))
    ensures sources.Some? ==> forall i, j :: 0 <= i < j < |sources.value| ==> sources.value[i] != sources.value[j]
  {
    if !index.Parsed? {
      return None;
    }
    var ok, out := Walk(hash, index.doc, [], []);
    assert [] + Preorder(index.doc) == Preorder(index.doc);
    if !ok {
      return None;
    }
    FirstOccurrencesMembers(Hashes(hash, Preorder(index.doc)));
    return Some(out);
  }

  /** Exactly the bodies of the inline scripts of the tree are hashed. */
  lemma {:induction false} HashedIffInlineScript(hash: string -> string, ns: seq<Node>, src: string)
    ensures src in Hashes(hash, ns) <==>
            exists i :: 0 <= i < |ns| && ns[i].Element? && ns[i].tag == "script" && "src" !in ns[i].attrs
              && TextOf(ns[i].children) != "" && hash(TextOf(ns[i].children)) == src
    decreases |ns|
  {
    if ns != [] {
      var rest := ns[..|ns| - 1];
      HashedIffInlineScript(hash, rest, src);
      if i :| 0 <= i < |rest| && IsInlineScript(rest[i]) && hash(TextOf(rest[i].children)) == src {
        assert ns[i] == rest[i];
      }
      if i :| 0 <= i < |ns| && IsInlineScript(ns[i]) && hash(TextOf(ns[i].children)) == src {
        assert i < |rest| ==> rest[i] == ns[i];
      }
    }
  }

  /** The nodes of a tree: itself and those of its children's trees. */
  ghost predicate Within(m: Node, n: Node)
    decreases n
  {
    m == n || exists k :: 0 <= k < |Kids(n)| && Within(m, Kids(n)[k])
  }

  /** The list holds every node of the tree and no other. */
  lemma {:induction false} PreorderHoldsTheTree(n: Node, m: Node)
    ensures m in Preorder(n) <==> Within(m, n)
    decreases n, |Kids(n)| + 1
  {
    PreorderKidsHold(n, |Kids(n)|, m);
  }

  lemma {:induction false} PreorderKidsHold(n: Node, k: nat, m: Node)
    requires k <= |Kids(n)|
    ensures m in PreorderKids(n, k) <==> exists i :: 0 <= i < k && Within(m, Kids(n)[i])
    decreases n, k
  {
    if k > 0 {
      PreorderKidsHold(n, k - 1, m);
      PreorderHoldsTheTree(Kids(n)[k - 1], m);
    }
  }

  /** A hash covers a document that parses and has no event handler on any element of it. */
  lemma HashableIff(index: Index)
    ensures Hashable(index) <==>
              index.Parsed? && forall m, i :: Within(m, index.doc) && m.Element? && 0 <= i < |m.attrs| ==>
                !("on" <= m.attrs[i] && |m.attrs[i]| > 2)
  {
    if index.Parsed? {
      var ns := Preorder(index.doc);
      if Hashable(index) {
        forall m, i | Within(m, index.doc) && m.Element? && 0 <= i < |m.attrs| ensures !IsHandler(m.attrs[i]) {
          PreorderHoldsTheTree(index.doc, m);
          assert !HasHandler(m);
        }
      } else {
        var k :| 0 <= k < |ns| && HasHandler(ns[k]);
        PreorderHoldsTheTree(index.doc, ns[k]);
        var i :| 0 <= i < |ns[k].attrs| && IsHandler(ns[k].attrs[i]);
        assert "on" <= ns[k].attrs[i];
      }
    }
  }

  /** It starts with the root and has the trees of two children in the order of the children. */
  lemma PreorderIsDocumentOrder(n: Node, j: nat, k: nat) returns (a: seq<Node>, b: seq<Node>, c: seq<Node>)
    requires j < k < |Kids(n)|
    ensures Preorder(n) == [n] + a + Preorder(Kids(n)[j]) + b + Preorder(Kids(n)[k]) + c
  {
    a := PreorderKids(n, j);
    b := KidsBetween(n, j + 1, k);
    c := KidsBetween(n, k + 1, |Kids(n)|);
  }

  lemma {:induction false} KidsBetween(n: Node, j: nat, k: nat) returns (between: seq<Node>)
    requires j <= k <= |Kids(n)|
    ensures PreorderKids(n, k) == PreorderKids(n, j) + between
    decreases k
  {
    if j == k {
      between := [];
    } else {
      var less := KidsBetween(n, j, k - 1);
      between := less + Preorder(Kids(n)[k - 1]);
    }
  }

  /** The body of a script: the text children, one after the other. */
  lemma {:induction false} TextOfJoin(a: seq<Node>, b: seq<Node>)
    ensures TextOf(a + b) == TextOf(a) + TextOf(b)
    decreases |b|
  {
    if b == [] {
      assert a + b == a;
    } else {
      var n := |b| - 1;
      assert (a + b)[..|a| + n] == a + b[..n];
      TextOfJoin(a, b[..n]);
    }
  }

  lemma TextOfOne(n: Node)
    ensures TextOf([n]) == if n.TextNode? then n.text else ""
  {
    assert [n][..0] == [];
  }

  /** The hashes of a longer document are those of its parts, in order. */
  lemma {:induction false} HashesJoin(hash: string -> string, a: seq<Node>, b: seq<Node>)
    ensures Hashes(hash, a + b) == Hashes(hash, a) + Hashes(hash, b)
    decreases |b|
  {
    if b == [] {
      assert a + b == a;
    } else {
      var n := |b| - 1;
      assert (a + b)[..|a| + n] == a + b[..n];
      HashesJoin(hash, a, b[..n]);
    }
  }

  // The policy.

  const Weak := "script-src 'self' 'unsafe-inline'"
  const Strict := "script-src 'self'"

  ghost predicate FirstAt(s: string, sub: string, i: int) {
    OccursAt(s, sub, i) && forall k :: 0 <= k < i ==> !OccursAt(s, sub, k)
  }

  /** `strings.Index`. */
  method Find(s: string, sub: string) returns (i: int)
    ensures i >= 0 ==> FirstAt(s, sub, i)
    ensures i < 0 ==> !Contains(s, sub)
  {
    i := 0;
    while i + |sub| <= |s|
      invariant 0 <= i
      invariant forall k :: 0 <= k < i ==> !OccursAt(s, sub, k)
    {
      if s[i..i + |sub|] == sub {
        return;
      }
      i := i + 1;
    }
    return -1;
  }

  /** `strings.Join` with a space. */
  function Joined(xs: seq<string>): string {
    if xs == [] then "" else if |xs| == 1 then xs[0] else xs[0] + " " + Joined(xs[1..])
  }

  /** The script directive that takes the weak one's place. */
  function Hardened(sources: seq<string>): string {
    if sources == [] then Strict else Strict + " " + Joined(sources)
  }

  /**
   * `hardenedStaticCSP`: without a weak script directive, or when a hash cannot cover the
   * document, the policy stays; otherwise only the first weak directive changes.
   */
  method HardenedStaticCsp(hash: string -> string, base: string, index: Index) returns (policy: string)
    ensures !Contains(base, "script-src 'self' 'unsafe-inline'") || !Hashable(index) ==> policy == base
    ensures Contains(base, "script-src 'self' 'unsafe-inline'") && Hashable(index) ==>
              exists i :: FirstAt(base, Weak, i) &&
                          policy == base[..i] + Hardened(Gathered(hash, Preorder(index.doc))) + base[i + |Weak|..]
  {
    var i := Find(base, Weak);
    if i < 0 {
      return base;
    }
    assert Contains(base, Weak);
    var sources := InlineScriptCsp(hash, index);
    if sources.None? {
      return base;
    }
    if |sources.value| == 0 {
      return base[..i] + Strict + base[i + |Weak|..];
    }
    return base[..i] + (Strict + " " + Joined(sources.value)) + base[i + |Weak|..];
  }

  lemma {:induction false} JoinedSnoc(xs: seq<string>, x: string)
    requires xs != []
    ensures Joined(xs + [x]) == Joined(xs) + " " + x
    decreases |xs|
  {
    if |xs| > 1 {
      JoinedSnoc(xs[1..], x);
      assert (xs + [x])[1..] == xs[1..] + [x];
    } else {
      assert (xs + [x])[1..] == [x];
    }
  }

  /** The new directive allows the site itself and then each hash, one after the other, and nothing else. */
  lemma HardenedLists(xs: seq<string>, x: string)
    ensures Hardened([]) == "script-src 'self'"
    ensures Hardened(xs + [x]) == Hardened(xs) + " " + x
  {
    if xs != [] {
      JoinedSnoc(xs, x);
    } else {
      assert xs + [x] == [x];
    }
  }
}
