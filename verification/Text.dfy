/** String operations of Go's `strings` and `sort` packages, as the engine uses them. */
module Text {

  /** `strings.IndexByte`: the first position of `c`, or -1. */
  function IndexOf(s: string, c: char): (i: int)
    ensures -1 <= i < |s|
    ensures 0 <= i ==> s[i] == c && c !in s[..i]
    ensures 0 <= i ==> forall n :: 0 <= n < i ==> s[n] != c
    ensures i < 0 ==> c !in s
  {
    if s == [] then -1
    else if s[0] == c then 0
    else
      var j := IndexOf(s[1..], c);
      assert s == [s[0]] + s[1..];
      assert 0 <= j ==> s[..j + 1] == [s[0]] + s[1..][..j];
      if j < 0 then -1 else j + 1
  }

  /** Case folding of the ASCII letters, the ones a hostname is made of. */
  function LowerChar(c: char): char {
    if 'A' <= c <= 'Z' then (c as int - 'A' as int + 'a' as int) as char else c
  }

  function UpperChar(c: char): char {
    if 'a' <= c <= 'z' then (c as int - 'a' as int + 'A' as int) as char else c
  }

  predicate IsLowerLetter(c: char) {
    'a' <= c <= 'z'
  }

  /** `strings.ToLower`. */
  function Lower(s: string): (r: string)
    ensures |r| == |s|
    ensures forall i :: 0 <= i < |s| ==> r[i] == LowerChar(s[i])
  {
    seq(|s|, i requires 0 <= i < |s| => LowerChar(s[i]))
  }

  /** `strings.ToUpper`. */
  function Upper(s: string): (r: string)
    ensures |r| == |s|
    ensures forall i :: 0 <= i < |s| ==> r[i] == UpperChar(s[i])
  {
    seq(|s|, i requires 0 <= i < |s| => UpperChar(s[i]))
  }

  lemma UpperIdempotent(s: string)
    ensures Upper(Upper(s)) == Upper(s)
  {
  }

  /** The bytes UTF-8 needs for a character. */
  function Width(c: char): nat {
    if c < '\U{0080}' then 1 else if c < '\U{0800}' then 2 else if c < '\U{10000}' then 3 else 4
  }

  /** `len` of a string. */
  function ByteLen(s: string): (n: nat)
    ensures n >= |s|
  {
    if s == [] then 0 else ByteLen(s[..|s| - 1]) + Width(s[|s| - 1])
  }

  lemma {:induction false} AsciiByteLen(s: string)
    requires forall i :: 0 <= i < |s| ==> s[i] < '\U{0080}'
    ensures ByteLen(s) == |s|
    decreases |s|
  {
    if s != [] {
      AsciiByteLen(s[..|s| - 1]);
    }
  }

  /** Lengths add up, and only ASCII characters count one. */
  lemma {:induction false} ByteLenJoin(a: string, b: string)
    ensures ByteLen(a + b) == ByteLen(a) + ByteLen(b)
    decreases |b|
  {
    if b == [] {
      assert a + b == a;
    } else {
      var n := |b| - 1;
      assert (a + b)[..|a| + n] == a + b[..n];
      ByteLenJoin(a, b[..n]);
    }
  }

  lemma ByteLenOne(c: char)
    ensures var code := c as int;
            ByteLen([c]) == if code < 0x80 then 1 else if code < 0x800 then 2 else if code < 0x1_0000 then 3 else 4
  {
    assert [c][..0] == [];
  }

  /** Folding moves the letters by 32 and leaves everything else alone. */
  lemma FoldingIs(s: string, i: nat)
    requires i < |s|
    ensures Lower(s)[i] as int == s[i] as int + (if 65 <= s[i] as int <= 90 then 32 else 0)
    ensures Upper(s)[i] as int == s[i] as int - (if 97 <= s[i] as int <= 122 then 32 else 0)
  {
  }

  /** `strings.HasPrefix`. */
  predicate HasPrefix(s: string, p: string) {
    |p| <= |s| && s[..|p|] == p
  }

  lemma LowerIdempotent(s: string)
    ensures Lower(Lower(s)) == Lower(s)
  {
  }

  lemma LowerOfSuffix(s: string, k: nat)
    requires k <= |s|
    ensures Lower(s[k..]) == Lower(s)[k..]
  {
  }

  /** The code points of Unicode's White_Space property, which `strings.TrimSpace` removes. */
  predicate IsSpace(c: char) {
    || '\t' <= c <= '\r'
    || c == ' '
    || c == '\U{0085}' || c == '\U{00A0}' || c == '\U{1680}'
    || '\U{2000}' <= c <= '\U{200A}'
    || c == '\U{2028}' || c == '\U{2029}' || c == '\U{202F}' || c == '\U{205F}' || c == '\U{3000}'
  }

  /** The first position from `i` on that does not hold white space. */
  function SkipSpaces(s: string, i: nat): (r: nat)
    requires i <= |s|
    ensures i <= r <= |s|
    ensures forall n :: i <= n < r ==> IsSpace(s[n])
    ensures r < |s| ==> !IsSpace(s[r])
    decreases |s| - i
  {
    if i < |s| && IsSpace(s[i]) then SkipSpaces(s, i + 1) else i
  }

  /** The end of `s[lo..j]` without its trailing white space. */
  function DropSpaces(s: string, lo: nat, j: nat): (r: nat)
    requires lo <= j <= |s|
    ensures lo <= r <= j
    ensures forall n :: r <= n < j ==> IsSpace(s[n])
    ensures lo < r ==> !IsSpace(s[r - 1])
    decreases j
  {
    if lo < j && IsSpace(s[j - 1]) then DropSpaces(s, lo, j - 1) else j
  }

  /** `strings.TrimSpace`. */
  function TrimSpace(s: string): (r: string)
    ensures |r| <= |s|
  {
    var lo := SkipSpaces(s, 0);
    s[lo..DropSpaces(s, lo, |s|)]
  }

  /** `s[lo..hi]` is what trimming `s` leaves. */
  ghost predicate TrimsTo(s: string, lo: nat, hi: nat) {
    && lo <= hi <= |s|
    && (forall n :: 0 <= n < lo ==> IsSpace(s[n]))
    && (forall n :: hi <= n < |s| ==> IsSpace(s[n]))
    && (lo < hi ==> !IsSpace(s[lo]) && !IsSpace(s[hi - 1]))
  }

  lemma TrimIs(s: string, lo: nat, hi: nat)
    requires TrimsTo(s, lo, hi)
    ensures TrimSpace(s) == s[lo..hi]
  {
    var l := SkipSpaces(s, 0);
    var h := DropSpaces(s, l, |s|);
    if lo < hi {
      assert l == lo && h == hi;
    } else {
      assert l == |s|;
    }
  }

  lemma TrimAddsNothing(s: string, c: char)
    requires c !in s
    ensures c !in TrimSpace(s)
  {
  }

  lemma TrimSplits(s: string) returns (lo: nat, hi: nat)
    ensures TrimsTo(s, lo, hi) && TrimSpace(s) == s[lo..hi]
  {
    lo := SkipSpaces(s, 0);
    hi := DropSpaces(s, lo, |s|);
  }

  /** A character is trimmed exactly when it is one of Unicode's white space characters. */
  lemma WhiteSpaceIs(c: char)
    ensures var n := c as int;
            TrimSpace([c]) == [] <==>
              9 <= n <= 13 || 0x2000 <= n <= 0x200A
              || n in {0x20, 0x85, 0xA0, 0x1680, 0x2028, 0x2029, 0x202F, 0x205F, 0x3000}
  {
    var lo, hi := TrimSplits([c]);
    assert TrimSpace([c]) == [] <==> IsSpace([c][0]);
  }

  /** No white space at either end. */
  predicate Trimmed(s: string) {
    s != [] ==> !IsSpace(s[0]) && !IsSpace(s[|s| - 1])
  }

  lemma TrimSpaceFixpoint(s: string)
    ensures TrimSpace(s) == s <==> Trimmed(s)
  {
    if Trimmed(s) {
      assert TrimsTo(s, 0, |s|);
      TrimIs(s, 0, |s|);
    } else {
      var lo, hi := TrimSplits(s);
      assert hi - lo < |s|;
    }
  }

  /** `strings.Contains`. */
  ghost predicate Contains(s: string, sub: string) {
    exists i :: OccursAt(s, sub, i)
  }

  predicate OccursAt(s: string, sub: string, i: int) {
    0 <= i <= |s| - |sub| && s[i..i + |sub|] == sub
  }

  /** The order of `sort.Strings`: first difference decides, a proper prefix comes first. */
  predicate Less(a: string, b: string) {
    b != [] && (a == [] || a[0] < b[0] || (a[0] == b[0] && Less(a[1..], b[1..])))
  }

  lemma LessTotal(a: string, b: string)
    ensures Less(a, b) || Less(b, a) || a == b
  {
    if a != [] && b != [] && a[0] == b[0] {
      LessTotal(a[1..], b[1..]);
      assert a[1..] == b[1..] ==> a == [a[0]] + a[1..] == b;
    }
  }

  lemma LessTransitive(a: string, b: string, c: string)
    requires Less(a, b) && Less(b, c)
    ensures Less(a, c)
  {
    if a != [] && a[0] == b[0] == c[0] {
      LessTransitive(a[1..], b[1..], c[1..]);
    }
  }

  lemma LessIrreflexive(a: string)
    ensures !Less(a, a)
  {
  }

  ghost predicate StrictlySorted(ks: seq<string>) {
    forall i, j :: 0 <= i < j < |ks| ==> Less(ks[i], ks[j])
  }

  lemma StrictlySortedNoDuplicates(ks: seq<string>)
    requires StrictlySorted(ks)
    ensures forall i, j :: 0 <= i < j < |ks| ==> ks[i] != ks[j]
  {
    forall i, j | 0 <= i < j < |ks| ensures ks[i] != ks[j] {
      LessIrreflexive(ks[i]);
    }
  }

  /** Two sorted lists of the same keys start with the same key. */
  lemma SameFirst(a: seq<string>, b: seq<string>)
    requires StrictlySorted(a) && StrictlySorted(b) && a != [] && b != []
    requires forall k :: k in a <==> k in b
    ensures a[0] == b[0]
  {
    if a[0] != b[0] {
      assert a[0] in a && b[0] in b;
      assert Less(b[0], a[0]) && Less(a[0], b[0]);
      LessTransitive(a[0], b[0], a[0]);
      LessIrreflexive(a[0]);
    }
  }

  lemma SortedTail(a: seq<string>)
    requires StrictlySorted(a) && a != []
    ensures StrictlySorted(a[1..]) && forall k :: k in a[1..] <==> k in a && k != a[0]
  {
    StrictlySortedNoDuplicates(a);
    assert a == [a[0]] + a[1..];
  }

  lemma EmptyTogether(a: seq<string>, b: seq<string>)
    requires forall k :: k in a <==> k in b
    ensures a != [] ==> b != []
  {
    if a != [] {
      assert a[0] in b;
    }
  }

  /** A set of keys has one sorted list. */
  lemma {:induction false} SortedListIsUnique(a: seq<string>, b: seq<string>)
    requires StrictlySorted(a) && StrictlySorted(b)
    requires forall k :: k in a <==> k in b
    ensures a == b
    decreases |a|
  {
    if a != [] && b != [] {
      SameFirst(a, b);
      SortedTail(a);
      SortedTail(b);
      SortedListIsUnique(a[1..], b[1..]);
      assert a == [a[0]] + a[1..] && b == [b[0]] + b[1..];
    } else {
      EmptyTogether(a, b);
      EmptyTogether(b, a);
    }
  }

  lemma {:induction false} HasLeast(keys: set<string>) returns (k: string)
    requires keys != {}
    ensures k in keys && forall x :: x in keys && x != k ==> Less(k, x)
    decreases |keys|
  {
    var c :| c in keys;
    k := c;
    var rest := keys - {c};
    if rest != {} {
      var l := HasLeast(rest);
      LessTotal(c, l);
      if Less(l, c) {
        k := l;
        forall x | x in keys && x != l ensures Less(l, x) {
          if x != c {
            assert x in rest;
          }
        }
      } else {
        assert Less(c, l);
        forall x | x in keys && x != c ensures Less(c, x) {
          assert x in rest;
          if x != l {
            LessTransitive(c, l, x);
          }
        }
      }
    }
  }

  lemma {:induction false} SortedListExists(keys: set<string>) returns (ks: seq<string>)
    ensures StrictlySorted(ks) && forall k :: k in ks <==> k in keys
    decreases |keys|
  {
    if keys == {} {
      ks := [];
    } else {
      var k := HasLeast(keys);
      var rest := SortedListExists(keys - {k});
      ks := [k] + rest;
      forall i, j | 0 <= i < j < |ks| ensures Less(ks[i], ks[j]) {
        assert ks[j] == rest[j - 1] && rest[j - 1] in rest;
        assert i > 0 ==> ks[i] == rest[i - 1];
      }
    }
  }

  /** The sorted list of a set of keys. */
  ghost function KeyList(keys: set<string>): (ks: seq<string>)
    ensures StrictlySorted(ks) && forall k :: k in ks <==> k in keys
  {
    assert exists ks :: StrictlySorted(ks) && forall k :: k in ks <==> k in keys by {
      var ks := SortedListExists(keys);
    }
    var ks :| StrictlySorted(ks) && forall k :: k in ks <==> k in keys;
    ks
  }

  /** The least key of a non-empty set. */
  method Least(keys: set<string>) returns (k: string)
    requires keys != {}
    ensures k in keys
    ensures forall x :: x in keys && x != k ==> Less(k, x)
  {
    k :| k in keys;
    var left := keys - {k};
    while left != {}
      invariant k in keys && left <= keys - {k}
      invariant forall x :: x in keys - left && x != k ==> Less(k, x)
      decreases left
    {
      var x :| x in left;
      LessTotal(k, x);
      if Less(x, k) {
        forall y | y in keys - left && y != k ensures Less(x, y) {
          LessTransitive(x, k, y);
        }
        k := x;
      }
      left := left - {x};
    }
  }

  /** `sortedKeys` of ctx.go and `sortedMapKeys` of route.go. */
  method SortedKeys<V>(m: map<string, V>) returns (ks: seq<string>)
    ensures StrictlySorted(ks)
    ensures forall k :: k in ks <==> k in m
  {
    ks := [];
    var left := m.Keys;
    while left != {}
      invariant left <= m.Keys
      invariant StrictlySorted(ks)
      invariant forall k :: k in ks <==> k in m.Keys - left
      invariant forall i, k :: 0 <= i < |ks| && k in left ==> Less(ks[i], k)
      decreases left
    {
      var k := Least(left);
      forall i, j | 0 <= i < j < |ks + [k]| ensures Less((ks + [k])[i], (ks + [k])[j]) {
      }
      ks := ks + [k];
      left := left - {k};
    }
  }

  /** A loop that copies the entries of `over` into a copy of `base`. */
  method Overlay<K, V>(base: map<K, V>, over: map<K, V>) returns (out: map<K, V>)
    ensures out == base + over
  {
    out := base;
    var left := over.Keys;
    while left != {}
      invariant left <= over.Keys
      invariant out.Keys == base.Keys + (over.Keys - left)
      invariant forall k :: k in out ==> out[k] == if k in over && k !in left then over[k] else base[k]
      decreases left
    {
      var k :| k in left;
      out := out[k := over[k]];
      left := left - {k};
    }
  }
}
