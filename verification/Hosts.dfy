/** Which app a Host header belongs to: the label-suffix walk of registry.go. */
module Hosts {
  import opened Text

  datatype Option<+T> = None | Some(value: T)

  /** `trimHostPort`: strips an optional port and IPv6 brackets. */
  function TrimHostPort(h: string): string {
    if "[" <= h then
      var i := IndexOf(h, ']');
      if i >= 0 then h[1..i] else h
    else
      var i := IndexOf(h, ':');
      if i >= 0 then h[..i] else h
  }

  /**
   * The name a Host header asks for: what stands between `[` and the first `]`, or before the
   * first colon; a header with neither, or with an unclosed bracket, names itself.
   */
  ghost predicate Names(host: string, h: string) {
    || ("[" + h + "]" <= host && ']' !in h)
    || ("[" <= host && ']' !in host && h == host)
    || (!("[" <= host) && h + ":" <= host && ':' !in h)
    || (!("[" <= host) && ':' !in host && h == host)
  }

  /** Every header asks for one name, and that is what `trimHostPort` leaves of it. */
  lemma NamesIff(host: string, h: string)
    ensures Names(host, h) <==> h == TrimHostPort(host)
  {
    if "[" <= host {
      var i := IndexOf(host, ']');
      if "[" + h + "]" <= host && ']' !in h {
        assert host[|h| + 1] == ("[" + h + "]")[|h| + 1];
        assert host[1..|h| + 1] == ("[" + h + "]")[1..|h| + 1] == h;
        assert forall n :: 0 < n <= |h| ==> host[n] == h[n - 1];
        assert i == |h| + 1;
      }
      if i >= 0 && h == host[1..i] {
        assert "[" + h + "]" == host[..i + 1];
        assert forall n :: 0 <= n < |h| ==> h[n] == host[n + 1];
      }
    } else {
      var i := IndexOf(host, ':');
      if h + ":" <= host && ':' !in h {
        assert host[|h|] == (h + ":")[|h|];
        assert forall n :: 0 <= n < |h| ==> host[n] == h[n];
        assert i == |h|;
      }
      if i >= 0 && h == host[..i] {
        assert h + ":" == host[..i + 1];
      }
    }
  }

  /** A label of `h` starts at `k`. */
  predicate Cut(h: string, k: int) {
    0 <= k <= |h| && (k == 0 || h[k - 1] == '.')
  }

  /** The longest label suffix of `h` that is registered starts at `k`. */
  ghost predicate LongestAt<A>(m: map<string, A>, h: string, k: int) {
    && Cut(h, k)
    && h[k..] in m
    && forall j :: 0 <= j < k && Cut(h, j) ==> h[j..] !in m
  }

  ghost predicate Unmatched<A>(m: map<string, A>, h: string) {
    forall k :: Cut(h, k) ==> h[k..] !in m
  }

  /** The inner loop of `Resolve`: probe, drop one label, repeat. */
  function Walk<A>(m: map<string, A>, s: string): Option<A>
    decreases |s|
  {
    if s in m then Some(m[s])
    else
      var i := IndexOf(s, '.');
      if i < 0 then None else Walk(m, s[i + 1..])
  }

  /** Label starts of a suffix are label starts of the whole, except at the end of the first label. */
  lemma CutShift(s: string, i: nat, k: int)
    requires i < |s| && s[i] == '.' && '.' !in s[..i]
    ensures Cut(s[i + 1..], k) <==> k >= 0 && Cut(s, i + 1 + k)
    ensures 0 < k <= i ==> !Cut(s, k)
  {
    if 0 < k <= i {
      assert s[k - 1] == s[..i][k - 1];
    }
  }

  lemma SuffixShift(s: string, i: nat, k: nat)
    requires i < |s| && k <= |s| - i - 1
    ensures s[i + 1..][k..] == s[i + 1 + k..]
  {
  }

  /** Behind an unregistered first label the longest suffix is that of the rest. */
  lemma LongestShift<A>(m: map<string, A>, s: string, i: nat, k: int)
    requires s !in m && i < |s| && s[i] == '.' && '.' !in s[..i]
    ensures LongestAt(m, s, i + 1 + k) && k >= 0 <==> LongestAt(m, s[i + 1..], k)
  {
    var t := s[i + 1..];
    CutShift(s, i, k);
    if Cut(t, k) {
      SuffixShift(s, i, k);
      forall j | 0 <= j < k && Cut(t, j) ensures t[j..] == s[i + 1 + j..] && Cut(s, i + 1 + j) {
        CutShift(s, i, j);
        SuffixShift(s, i, j);
      }
      forall j | 0 <= j < i + 1 + k && Cut(s, j)
          ensures (j == 0 && s[j..] == s) || (j > i && Cut(t, j - i - 1) && s[j..] == t[j - i - 1..]) {
        CutShift(s, i, j);
        CutShift(s, i, j - i - 1);
        if j > i {
          SuffixShift(s, i, j - i - 1);
        }
      }
    }
  }

  lemma UnmatchedShift<A>(m: map<string, A>, s: string, i: nat)
    requires s !in m && i < |s| && s[i] == '.' && '.' !in s[..i]
    ensures Unmatched(m, s) <==> Unmatched(m, s[i + 1..])
  {
    var t := s[i + 1..];
    if Unmatched(m, s) {
      forall k | Cut(t, k) ensures t[k..] !in m {
        CutShift(s, i, k);
        SuffixShift(s, i, k);
      }
    }
    if Unmatched(m, t) {
      forall k | Cut(s, k) ensures s[k..] !in m {
        CutShift(s, i, k);
        if k == 0 {
          assert s[0..] == s;
        } else {
          CutShift(s, i, k - i - 1);
          SuffixShift(s, i, k - i - 1);
        }
      }
    }
  }

  lemma OnlyOneLabel<A>(m: map<string, A>, s: string)
    requires s !in m && '.' !in s
    ensures Unmatched(m, s)
  {
    forall k | 0 < k <= |s| ensures !Cut(s, k) {
      assert s[k - 1] in s;
    }
    assert s[0..] == s;
  }

  lemma UnmatchedHasNoLongest<A>(m: map<string, A>, s: string)
    requires Unmatched(m, s)
    ensures forall k :: !LongestAt(m, s, k)
  {
  }

  /** The probe loop finds exactly the longest registered label suffix. */
  lemma {:induction false} WalkFindsLongest<A>(m: map<string, A>, s: string)
    ensures forall k :: LongestAt(m, s, k) ==> Walk(m, s) == Some(m[s[k..]])
    ensures Walk(m, s).None? <==> Unmatched(m, s)
    ensures Walk(m, s).Some? ==> exists k :: LongestAt(m, s, k)
    decreases |s|
  {
    var i := IndexOf(s, '.');
    assert s[0..] == s;
    if s in m {
      assert LongestAt(m, s, 0);
    } else if i < 0 {
      OnlyOneLabel(m, s);
      UnmatchedHasNoLongest(m, s);
    } else {
      WalkFindsLongest(m, s[i + 1..]);
      UnmatchedShift(m, s, i);
      WalkShift(m, s, i, s[i + 1..]);
    }
  }

  /** A longest suffix of the whole is one of the rest, and the other way round. */
  lemma LongestBehindLabel<A>(m: map<string, A>, s: string, i: nat, k: int)
    requires s !in m && i == IndexOf(s, '.') && LongestAt(m, s, k)
    ensures k > i && LongestAt(m, s[i + 1..], k - i - 1) && s[i + 1..][k - i - 1..] == s[k..]
  {
    PastFirstLabel(m, s, i, k);
    LongestShift(m, s, i, k - i - 1);
    SuffixShift(s, i, k - i - 1);
  }

  lemma PastFirstLabel<A>(m: map<string, A>, s: string, i: nat, k: int)
    requires s !in m && i < |s| && s[i] == '.' && '.' !in s[..i] && Cut(s, k) && s[k..] in m
    ensures k > i
  {
    CutShift(s, i, k);
    assert s[0..] == s;
  }

  lemma WalkShift<A>(m: map<string, A>, s: string, i: nat, t: string)
    requires s !in m && i == IndexOf(s, '.') && t == s[i + 1..]
    requires forall k :: LongestAt(m, t, k) ==> Walk(m, s) == Some(m[t[k..]])
    requires Walk(m, s).Some? ==> exists k :: LongestAt(m, t, k)
    ensures forall k :: LongestAt(m, s, k) ==> Walk(m, s) == Some(m[s[k..]])
    ensures Walk(m, s).Some? ==> exists k :: LongestAt(m, s, k)
  {
    forall k | LongestAt(m, s, k) ensures Walk(m, s) == Some(m[s[k..]]) {
      LongestBehindLabel(m, s, i, k);
    }
    if Walk(m, s).Some? {
      var k :| LongestAt(m, t, k);
      LongestShift(m, s, i, k);
    }
  }

  /** `Resolve` on one loaded table: the host as written, then its lowercase, then the default. */
  function ResolveIn<A>(m: map<string, A>, def: A, host: string): A {
    var h := TrimHostPort(host);
    match Walk(m, h)
    case Some(app) => app
    case None =>
      match Walk(m, Lower(h))
      case Some(app) => app
      case None => def
  }

  /** Case-insensitive longest match, what section 3.2.2 of RFC 3986 asks of a host. */
  function CaseInsensitiveIn<A>(m: map<string, A>, def: A, host: string): A {
    match Walk(m, Lower(TrimHostPort(host)))
    case Some(app) => app
    case None => def
  }

  /** Keys the registry demands: lowercase hostnames without a port. */
  ghost predicate HostTable<A>(m: map<string, A>) {
    forall d :: d in m ==> Lower(d) == d && TrimHostPort(d) == d
  }

  /**
   * No letter of a registered domain shields a different app: capitalising the letter at `i`
   * of `d` makes the walk fall through to the next registered suffix, `d[j..]`.
   */
  ghost predicate CaseSafe<A>(m: map<string, A>) {
    forall d, i, j ::
      d in m && 0 <= i < j && Cut(d, j) && IsLowerLetter(d[i]) && d[j..] in m && NoneBetween(m, d, i, j)
      ==> m[d[j..]] == m[d]
  }

  ghost predicate NoneBetween<A>(m: map<string, A>, d: string, i: int, j: int) {
    forall k :: i < k < j && Cut(d, k) ==> d[k..] !in m
  }

  lemma LowerKeepsCuts(h: string, k: int)
    ensures Cut(h, k) <==> Cut(Lower(h), k)
  {
  }

  /** The last position before `k` where `h` is not lowercase. */
  lemma LastUpper(h: string, n: nat, k: nat) returns (p: nat)
    requires n < k <= |h| && h[n] != Lower(h)[n]
    ensures n <= p < k && h[p] != Lower(h)[p]
    ensures forall q :: p < q < k ==> h[q] == Lower(h)[q]
    decreases k
  {
    if h[k - 1] != Lower(h)[k - 1] {
      p := k - 1;
    } else {
      p := LastUpper(h, n, k - 1);
    }
  }

  /** A label suffix that has no capital left reads the same in lowercase. */
  lemma NoneBetweenCapitalAndMatch<A>(m: map<string, A>, h: string, k: int, k': int, p: int)
    requires 0 <= k' <= p < k <= |h| && LongestAt(m, h, k)
    requires forall n :: p < n < k ==> Lower(h)[n] == h[n]
    requires Lower(h)[k..] == h[k..]
    ensures NoneBetween(m, Lower(h)[k'..], p - k', k - k')
  {
    var l, d, i, j := Lower(h), Lower(h)[k'..], p - k', k - k';
    forall q | i < q < j && Cut(d, q) ensures d[q..] !in m {
      assert Cut(l, k' + q);
      LowerKeepsCuts(h, k' + q);
      assert h[k' + q..] == l[k' + q..] == d[q..];
    }
  }

  /** A case difference that hides a longer match hides one of the same app. */
  lemma SafeTableHidesNothing<A>(m: map<string, A>, h: string, k: int, k': int)
    requires CaseSafe(m) && 0 <= k' < k <= |h|
    requires LongestAt(m, h, k) && LongestAt(m, Lower(h), k') && Lower(h)[k..] == h[k..]
    ensures m[Lower(h)[k'..]] == m[h[k..]]
  {
    var l := Lower(h);
    LowerKeepsCuts(h, k');
    assert h[k'..] == h[k'..k] + h[k..] && l[k'..] == l[k'..k] + l[k..];
    assert h[k'..k] != l[k'..k];
    var n :| k' <= n < k && h[n] != l[n];
    var p := LastUpper(h, n, k);
    NoneBetweenCapitalAndMatch(m, h, k, k', p);
    var d, i, j := l[k'..], p - k', k - k';
    assert d[j..] == l[k..];
    assert IsLowerLetter(d[i]) && Cut(d, j);
  }

  lemma SafeTableIgnoresCase<A>(m: map<string, A>, h: string)
    requires HostTable(m) && CaseSafe(m) && Walk(m, h).Some?
    ensures Walk(m, Lower(h)) == Walk(m, h)
  {
    var l := Lower(h);
    WalkFindsLongest(m, h);
    WalkFindsLongest(m, l);
    var k :| LongestAt(m, h, k);
    LowerKeepsCuts(h, k);
    LowerOfSuffix(h, k);
    assert l[k..] == h[k..];
    assert !Unmatched(m, l);
    var k' :| LongestAt(m, l, k');
    if k' < k {
      SafeTableHidesNothing(m, h, k, k');
    }
  }

  lemma CapitalisedHostTrims(d: string, i: nat)
    requires i < |d| && IsLowerLetter(d[i]) && TrimHostPort(d) == d
    ensures TrimHostPort(d[i := UpperChar(d[i])]) == d[i := UpperChar(d[i])]
  {
    var h := d[i := UpperChar(d[i])];
    forall c | c == ':' || c == ']' ensures c in h <==> c in d {
      if c in d {
        var n :| 0 <= n < |d| && d[n] == c;
        assert h[n] == c;
      }
      if c in h {
        var n :| 0 <= n < |h| && h[n] == c;
        assert d[n] == c;
      }
    }
    assert "[" <= h <==> "[" <= d;
    assert "[" <= d ==> ']' !in d;
    assert !("[" <= d) ==> ':' !in d;
  }

  /** Capitalising one letter of a registered domain exposes the next registered suffix. */
  lemma CapitalisedHostFallsThrough<A>(m: map<string, A>, def: A, d: string, i: int, j: int)
    requires HostTable(m) && d in m && 0 <= i < j && Cut(d, j)
    requires IsLowerLetter(d[i]) && d[j..] in m && NoneBetween(m, d, i, j)
    ensures ResolveIn(m, def, d[i := UpperChar(d[i])]) == m[d[j..]]
    ensures CaseInsensitiveIn(m, def, d[i := UpperChar(d[i])]) == m[d]
  {
    var h := d[i := UpperChar(d[i])];
    CapitalisedHostTrims(d, i);
    assert Lower(h) == Lower(d) == d;
    forall k ensures Cut(h, k) <==> Cut(d, k) {
      LowerKeepsCuts(h, k);
    }
    forall k | 0 <= k < j && Cut(h, k) ensures h[k..] !in m {
      if k <= i {
        assert Lower(h[k..])[i - k] != h[k..][i - k];
      } else {
        assert h[k..] == d[k..];
      }
    }
    assert h[j..] == d[j..];
    assert LongestAt(m, h, j);
    WalkFindsLongest(m, h);
  }

  /**
   * Exactly the case-safe tables route every host, in every spelling, as section 3.2.2 of
   * RFC 3986 asks.
   */
  lemma CaseInsensitiveIffSafe<A(!new)>(m: map<string, A>, def: A)
    requires HostTable(m)
    ensures (forall host :: ResolveIn(m, def, host) == CaseInsensitiveIn(m, def, host)) <==> CaseSafe(m)
  {
    if CaseSafe(m) {
      forall host ensures ResolveIn(m, def, host) == CaseInsensitiveIn(m, def, host) {
        var h := TrimHostPort(host);
        if Walk(m, h).Some? {
          SafeTableIgnoresCase(m, h);
        }
      }
    } else {
      var d, i, j :| d in m && 0 <= i < j && Cut(d, j) && IsLowerLetter(d[i]) && d[j..] in m
                  && NoneBetween(m, d, i, j) && m[d[j..]] != m[d];
      CapitalisedHostFallsThrough(m, def, d, i, j);
      var host := d[i := UpperChar(d[i])];
      assert ResolveIn(m, def, host) != CaseInsensitiveIn(m, def, host);
    }
  }

  /** A lowercase host is matched case-insensitively by every table. */
  lemma LowercaseHostAgrees<A>(m: map<string, A>, def: A, host: string)
    requires Lower(host) == host
    ensures ResolveIn(m, def, host) == CaseInsensitiveIn(m, def, host)
  {
    var h := TrimHostPort(host);
    forall i | 0 <= i < |h| ensures LowerChar(h[i]) == h[i] {
      if "[" <= host && IndexOf(host, ']') >= 0 {
        assert h[i] == host[i + 1] == Lower(host)[i + 1];
      } else {
        assert h[i] == host[i] == Lower(host)[i];
      }
    }
    assert Lower(h) == h;
  }

  /** No registered domain is a proper label suffix of another. */
  ghost predicate NoNesting<A>(m: map<string, A>) {
    forall d, j :: d in m && 0 < j && Cut(d, j) ==> d[j..] !in m
  }

  lemma UnnestedTableIsSafe<A>(m: map<string, A>)
    requires NoNesting(m)
    ensures CaseSafe(m)
  {
  }

  /** With a.b nested under b, the host A.b goes to the wrong app. */
  lemma NestedTableMisroutesMixedCase()
    ensures var m := map["b" := 0, "a.b" := 1];
            && HostTable(m) && !CaseSafe(m)
            && ResolveIn(m, 2, "A.b") == 0
            && CaseInsensitiveIn(m, 2, "A.b") == 1
  {
    var m := map["b" := 0, "a.b" := 1];
    var d := "a.b";
    assert Lower(d) == d && Lower("b") == "b";
    assert d[2..] == "b";
    assert NoneBetween(m, d, 0, 2) && Cut(d, 2) && IsLowerLetter(d[0]);
    assert d[0 := UpperChar(d[0])] == "A.b";
    CapitalisedHostFallsThrough(m, 2, d, 0, 2);
  }
}
