/** The per-app env file: written by `writeAppEnvFile`, read back by `parseEnvFile` at a fleet restart. */
module EnvFile {
  import opened Text
  import opened Hosts

  const EXPORT := "export "

  /** The first line of every generated file: some comment. */
  type Comment = c: string | c != "" && c[0] == '#' && '\n' !in c witness "#"

  function Line(env: map<string, string>, k: string): string
    requires k in env
  {
    k + "=" + env[k]
  }

  function LineSeq(ks: seq<string>, env: map<string, string>): (ls: seq<string>)
    requires forall k :: k in ks ==> k in env
    ensures |ls| == |ks| && forall i :: 0 <= i < |ks| ==> ks[i] in env && ls[i] == Line(env, ks[i])
  {
    seq(|ks|, i requires 0 <= i < |ks| => assert ks[i] in ks; Line(env, ks[i]))
  }

  /** The lines, each ended by a newline. */
  function FileText(ls: seq<string>): string {
    if ls == [] then "" else FileText(ls[..|ls| - 1]) + ls[|ls| - 1] + "\n"
  }

  lemma FileTextStep(ls: seq<string>, n: nat)
    requires n < |ls|
    ensures FileText(ls[..n + 1]) == FileText(ls[..n]) + ls[n] + "\n"
  {
    assert ls[..n + 1][..n] == ls[..n];
  }

  function Render(header: Comment, ks: seq<string>, env: map<string, string>): string
    requires forall k :: k in ks ==> k in env
  {
    FileText([header] + LineSeq(ks, env))
  }

  /** The file of an env: the header, then one line a key, keys in order. */
  ghost function TextOf(header: Comment, env: map<string, string>): string {
    Render(header, KeyList(env.Keys), env)
  }

  /** `writeAppEnvFile`: the header, then one KEY=VALUE line a key, keys in order. */
  method WriteAppEnvFile(header: Comment, env: map<string, string>) returns (text: string)
    ensures text == TextOf(header, env)
  {
    var ks := SortedKeys(env);
    text := WriteLines(header, ks, env);
    SortedListIsUnique(ks, KeyList(env.Keys));
  }

  method WriteLines(header: Comment, ks: seq<string>, env: map<string, string>) returns (text: string)
    requires forall k :: k in ks ==> k in env
    ensures text == Render(header, ks, env)
  {
    ghost var ls := [header] + LineSeq(ks, env);
    text := header + "\n";
    FileTextStep(ls, 0);
    for i := 0 to |ks|
      invariant text == FileText(ls[..i + 1])
    {
      FileTextStep(ls, i + 1);
      text := text + (ks[i] + "=" + env[ks[i]]) + "\n";
    }
    assert ls[..|ks| + 1] == ls;
  }

  /** `strings.Split` at newlines. */
  function Split(s: string): (ls: seq<string>)
    ensures |ls| > 0
    ensures forall l :: l in ls ==> '\n' !in l
    decreases |s|
  {
    var i := IndexOf(s, '\n');
    if i < 0 then [s] else [s[..i]] + Split(s[i + 1..])
  }

  lemma SplitFirst(line: string, rest: string)
    requires '\n' !in line
    ensures Split(line + "\n" + rest) == [line] + Split(rest)
  {
    var s := line + "\n" + rest;
    var i := IndexOf(s, '\n');
    assert s[|line|] == '\n';
    assert forall n :: 0 <= n < |line| ==> s[n] == line[n];
    assert i == |line|;
    assert s[..i] == line && s[i + 1..] == rest;
  }

  lemma FirstNewlineStays(s: string, more: string, t: string, i: nat)
    requires t == s + more && i == IndexOf(s, '\n')
    ensures IndexOf(t, '\n') == i && t[..i] == s[..i] && t[i + 1..] == s[i + 1..] + more
  {
    assert t[i] == s[i] && forall n :: 0 <= n < i ==> t[n] == s[n];
  }

  lemma SplitFront(s: string, i: nat, head: string, tail: string)
    requires i == IndexOf(s, '\n') && head == s[..i] && tail == s[i + 1..]
    ensures Split(s) == [head] + Split(tail)
  {
  }

  lemma SplitOnce(s: string, more: string, t: string, line: string)
    requires '\n' !in s && '\n' !in line && |more| > 0 && more[0] == '\n' && more[1..] == line && t == s + more
    ensures Split(t) == Split(s) + [line]
  {
    assert t[|s|] == '\n' && forall n :: 0 <= n < |s| ==> t[n] == s[n];
    assert IndexOf(t, '\n') == |s| && t[..|s|] == s && t[|s| + 1..] == line;
    SplitFront(t, |s|, s, line);
  }

  lemma {:induction false} SplitBehind(s: string, more: string, t: string, line: string)
    requires '\n' !in line && |more| > 0 && more[0] == '\n' && more[1..] == line && t == s + more
    ensures Split(t) == Split(s) + [line]
    decreases |s|
  {
    var i := IndexOf(s, '\n');
    if i < 0 {
      SplitOnce(s, more, t, line);
    } else {
      var rest := s[i + 1..];
      SplitBehind(rest, more, rest + more, line);
      FirstNewlineStays(s, more, t, i);
      SplitFront(s, i, s[..i], rest);
      SplitFront(t, i, s[..i], rest + more);
    }
  }

  /** Splitting at the last newline of a text that ends in one. */
  lemma SplitLast(s: string, line: string)
    requires '\n' !in line
    ensures Split(s + "\n" + line) == Split(s) + [line]
  {
    var more := "\n" + line;
    assert s + "\n" + line == s + more;
    SplitBehind(s, more, s + more, line);
  }

  lemma {:induction false} SplitFile(ls: seq<string>)
    requires forall i :: 0 <= i < |ls| ==> '\n' !in ls[i]
    ensures Split(FileText(ls)) == ls + [""]
    decreases |ls|
  {
    if ls == [] {
      assert IndexOf("", '\n') < 0;
    } else {
      var n := |ls| - 1;
      SplitFile(ls[..n]);
      SplitUnended(FileText(ls[..n]), ls[..n], ls[n]);
      SplitLast(FileText(ls[..n]) + ls[n], "");
      assert FileText(ls) == FileText(ls[..n]) + ls[n] + "\n" + "";
      assert ls == ls[..n] + [ls[n]];
    }
  }

  lemma SplitAt(a: string, b: string, ls: seq<string>, line: string)
    requires '\n' !in a && |ls| > 0
    requires Split(a + "\n" + b) == ls + [line]
    ensures ls[0] == a && Split(b) == ls[1..] + [line]
  {
    SplitFirst(a, b);
    var all := Split(a + "\n" + b);
    assert all[0] == a && all[1..] == Split(b);
    assert (ls + [line])[1..] == ls[1..] + [line];
  }

  /** Text put after the last newline becomes the last line. */
  lemma {:induction false} SplitUnended(s: string, ls: seq<string>, line: string)
    requires Split(s) == ls + [""] && '\n' !in line
    ensures Split(s + line) == ls + [line]
    decreases |s|
  {
    var i := IndexOf(s, '\n');
    if i < 0 {
      assert |Split(s)| == 1 && Split(s)[0] == s;
      assert ls == [] && s == "";
      assert s + line == line;
      assert Split(line) == [line];
    } else {
      var a, b := s[..i], s[i + 1..];
      assert s == a + "\n" + b;
      assert |Split(s)| == 1 + |Split(b)|;
      SplitAt(a, b, ls, "");
      SplitUnended(b, ls[1..], line);
      SplitPrepend(a, b + line, ls, line);
      assert s + line == a + "\n" + (b + line);
    }
  }

  lemma SplitPrepend(a: string, rest: string, ls: seq<string>, line: string)
    requires '\n' !in a && |ls| > 0 && ls[0] == a && Split(rest) == ls[1..] + [line]
    ensures Split(a + "\n" + rest) == ls + [line]
  {
    SplitFirst(a, rest);
    assert [a] + (ls[1..] + [line]) == ls + [line];
  }

  datatype LineResult<+K, +V> = Skip | Entry(key: K, value: V) | Bad

  predicate Quoted(v: string) {
    |v| >= 2 && ((v[0] == '"' && v[|v| - 1] == '"') || (v[0] == '\'' && v[|v| - 1] == '\''))
  }

  function Unquote(v: string): string {
    if Quoted(v) then v[1..|v| - 1] else v
  }

  function TrimExport(line: string): string {
    if EXPORT <= line then line[|EXPORT|..] else line
  }

  /** One line of `parseEnvFile`. */
  function ParseLine(line: string): LineResult<string, string> {
    var l := TrimSpace(TrimExport(line));
    if l == "" || l[0] == '#' then Skip
    else
      var i := IndexOf(l, '=');
      if i < 0 || TrimSpace(l[..i]) == "" then Bad
      else Entry(TrimSpace(l[..i]), Unquote(TrimSpace(l[i + 1..])))
  }

  /** The entries in file order, later ones winning; a bad line fails the whole file. */
  function Collect<K, V>(rs: seq<LineResult<K, V>>): Option<map<K, V>> {
    if rs == [] then Some(map[])
    else
      var prev, r := Collect(rs[..|rs| - 1]), rs[|rs| - 1];
      if prev.None? || r.Bad? then None
      else if r.Skip? then prev
      else Some(prev.value[r.key := r.value])
  }

  function Results(ls: seq<string>): (rs: seq<LineResult<string, string>>)
    ensures |rs| == |ls| && forall i :: 0 <= i < |ls| ==> rs[i] == ParseLine(ls[i])
  {
    seq(|ls|, i requires 0 <= i < |ls| => ParseLine(ls[i]))
  }

  function Parse(text: string): Option<map<string, string>> {
    Collect(Results(Split(text)))
  }

  lemma {:induction false} BadLineStops<K, V>(rs: seq<LineResult<K, V>>, i: nat)
    requires i <= |rs| && Collect(rs[..i]).None?
    ensures Collect(rs).None?
    decreases |rs| - i
  {
    if i == |rs| {
      assert rs[..i] == rs;
    } else {
      assert rs[..i + 1][..i] == rs[..i];
      BadLineStops(rs, i + 1);
    }
  }

  lemma CollectStep<K, V>(rs: seq<LineResult<K, V>>, i: nat)
    requires i < |rs| && Collect(rs[..i]).Some?
    ensures Collect(rs[..i + 1]) ==
            if rs[i].Bad? then None
            else if rs[i].Skip? then Collect(rs[..i])
            else Some(Collect(rs[..i]).value[rs[i].key := rs[i].value])
  {
    assert rs[..i + 1][..i] == rs[..i];
  }

  method ParseEnvFile(text: string) returns (out: Option<map<string, string>>)
    ensures out == Parse(text)
  {
    var ls := Split(text);
    var rs := Results(ls);
    var m: map<string, string> := map[];
    for i := 0 to |rs|
      invariant Collect(rs[..i]) == Some(m)
    {
      CollectStep(rs, i);
      if rs[i].Bad? {
        BadLineStops(rs, i + 1);
        return None;
      }
      if rs[i].Entry? {
        m := m[rs[i].key := rs[i].value];
      }
    }
    assert rs[..|rs|] == rs;
    return Some(m);
  }

  // What survives the round trip.

  predicate SafeKey(k: string) {
    && k != "" && Trimmed(k) && k[0] != '#'
    && '=' !in k && '\n' !in k
    && !(EXPORT <= k)
  }

  predicate SafeValue(v: string) {
    '\n' !in v && Trimmed(v) && !Quoted(v)
  }

  ghost predicate SafeEnv(env: map<string, string>) {
    forall k :: k in env ==> SafeKey(k) && SafeValue(env[k])
  }

  /** A key as a parse can produce one. */
  predicate PlainKey(k: string) {
    k != "" && Trimmed(k) && k[0] != '#' && '=' !in k && '\n' !in k
  }

  lemma FirstEquals(k: string, v: string)
    requires '=' !in k
    ensures IndexOf(k + "=" + v, '=') == |k|
  {
    var l := k + "=" + v;
    assert l[|k|] == '=';
    assert forall n :: 0 <= n < |k| ==> l[n] == k[n];
  }

  /** `v[..hi]` is `v` without its trailing white space. */
  ghost predicate EndsAt(v: string, hi: nat) {
    && hi <= |v|
    && (forall n :: hi <= n < |v| ==> IsSpace(v[n]))
    && (hi > 0 ==> !IsSpace(v[hi - 1]))
  }

  /** Trimming the line of a key touches only its value. */
  lemma TrimPrefixed(p: string, v: string, hi: nat)
    requires p != "" && !IsSpace(p[0]) && !IsSpace(p[|p| - 1]) && EndsAt(v, hi)
    ensures TrimSpace(p + v) == p + v[..hi]
  {
    var l, n := p + v, |p|;
    forall j | n + hi <= j < |l| ensures IsSpace(l[j]) {
      assert l[j] == v[j - n];
    }
    assert l[n + hi - 1] == (if hi > 0 then v[hi - 1] else p[n - 1]);
    assert TrimsTo(l, 0, n + hi);
    TrimIs(l, 0, n + hi);
  }

  lemma TrimAllSpaces(v: string)
    requires forall n :: 0 <= n < |v| ==> IsSpace(v[n])
    ensures TrimSpace(v) == ""
  {
    TrimIs(v, |v|, |v|);
  }

  lemma TrimSame(v: string, w: string, lo: nat, hi: nat)
    requires lo < hi <= |w| && hi <= |v| && w == v[..hi] && TrimsTo(v, lo, hi)
    ensures TrimSpace(w) == TrimSpace(v)
  {
    TrimIs(v, lo, hi);
    TrimIs(w, lo, hi);
    assert w[lo..hi] == v[lo..hi];
  }

  lemma TrimAgain(v: string, hi: nat)
    requires EndsAt(v, hi)
    ensures TrimSpace(v[..hi]) == TrimSpace(v)
  {
    if hi == 0 {
      TrimAllSpaces(v);
      TrimAllSpaces(v[..0]);
    } else {
      var lo := SkipSpaces(v, 0);
      assert lo < hi;
      TrimSame(v, v[..hi], lo, hi);
    }
  }

  lemma TrailingSpace(v: string) returns (hi: nat)
    ensures EndsAt(v, hi)
  {
    hi := DropSpaces(v, 0, |v|);
  }

  lemma NotExported(k: string, v: string)
    requires '=' !in k && !(EXPORT <= k)
    ensures TrimExport(k + "=" + v) == k + "=" + v
  {
    var line := k + "=" + v;
    assert line[|k|] == '=';
    if |k| >= |EXPORT| {
      assert line[..|EXPORT|] == k[..|EXPORT|];
    } else {
      assert EXPORT[|k|] != '=';
    }
  }

  /** The part of `ParseLine` after the trimming. */
  lemma TrimmedLineParses(line: string, k: string, w: string)
    requires TrimSpace(TrimExport(line)) == k + "=" + w && '=' !in k && PlainKey(k)
    ensures ParseLine(line) == Entry(k, Unquote(TrimSpace(w)))
  {
    var l := k + "=" + w;
    FirstEquals(k, w);
    assert l[0] == k[0];
    assert l[..|k|] == k && l[|k| + 1..] == w;
    TrimSpaceFixpoint(k);
  }

  /** The line of a key without the export prefix yields that key. */
  lemma PlainLineParses(k: string, v: string)
    requires PlainKey(k) && !(EXPORT <= k)
    ensures ParseLine(k + "=" + v) == Entry(k, Unquote(TrimSpace(v)))
  {
    NotExported(k, v);
    var hi := TrailingSpace(v);
    TrimPrefixed(k + "=", v, hi);
    TrimAgain(v, hi);
    TrimmedLineParses(k + "=" + v, k, v[..hi]);
  }

  /** In a trimmed line the first '=' stands no further right than before. */
  lemma TrimMovesEqualsLeft(k: string, v: string)
    ensures var i := IndexOf(TrimSpace(k + "=" + v), '='); 0 <= i <= |k|
  {
    var t := k + "=" + v;
    assert t[|k|] == '=';
    var lo, hi := TrimSplits(t);
    assert lo <= |k| < hi;
    assert TrimSpace(t)[|k| - lo] == '=';
  }

  /** The line of a key with the export prefix yields a shorter key, or none. */
  lemma ExportLineShortens(k: string, v: string)
    requires EXPORT <= k
    ensures var r := ParseLine(k + "=" + v); r.Entry? ==> |r.key| < |k|
  {
    var line, k' := k + "=" + v, k[|EXPORT|..];
    assert line[|EXPORT|..] == k' + "=" + v;
    TrimMovesEqualsLeft(k', v);
  }

  /** The key part of a trimmed line keeps its first character. */
  lemma TrimKeepsHead(k: string)
    requires k != "" && !IsSpace(k[0])
    ensures TrimSpace(k) != "" && TrimSpace(k)[0] == k[0] && Trimmed(TrimSpace(k))
  {
    var lo, hi := TrimSplits(k);
    assert lo == 0 < hi;
  }

  lemma TrimmedHead(s: string)
    requires TrimSpace(s) != ""
    ensures !IsSpace(TrimSpace(s)[0])
  {
    var lo, hi := TrimSplits(s);
    assert lo < hi;
  }

  lemma TrimOfSpaces(s: string)
    requires TrimSpace(s) != ""
    ensures s != ""
  {
  }

  lemma EntryIsPlain(line: string)
    requires '\n' !in line && ParseLine(line).Entry?
    ensures PlainKey(ParseLine(line).key) && '\n' !in ParseLine(line).value
  {
    var l := TrimSpace(TrimExport(line));
    var i := IndexOf(l, '=');
    var k, v := l[..i], l[i + 1..];
    TrimAddsNothing(TrimExport(line), '\n');
    TrimmedHead(TrimExport(line));
    TrimOfSpaces(k);
    TrimKeepsHead(k);
    assert '=' !in k && '\n' !in k && '\n' !in v;
    TrimAddsNothing(k, '=');
    TrimAddsNothing(k, '\n');
    TrimAddsNothing(v, '\n');
  }

  /** Every collected entry stands on some line. */
  lemma {:induction false} CollectedEntryHasALine<K, V>(rs: seq<LineResult<K, V>>, k: K)
    requires Collect(rs).Some? && k in Collect(rs).value
    ensures exists i :: 0 <= i < |rs| && rs[i] == Entry(k, Collect(rs).value[k])
    decreases |rs|
  {
    var last := rs[|rs| - 1];
    if last.Entry? && last.key == k {
      assert rs[|rs| - 1] == Entry(k, Collect(rs).value[k]);
    } else {
      var init := rs[..|rs| - 1];
      CollectedEntryHasALine(init, k);
      var i :| 0 <= i < |init| && init[i] == Entry(k, Collect(init).value[k]);
      assert rs[i] == init[i];
    }
  }

  lemma CollectedEntriesArePlain(ls: seq<string>, k: string)
    requires forall l :: l in ls ==> '\n' !in l
    requires Collect(Results(ls)).Some? && k in Collect(Results(ls)).value
    ensures PlainKey(k) && '\n' !in Collect(Results(ls)).value[k]
  {
    CollectedEntryHasALine(Results(ls), k);
    var i :| 0 <= i < |ls| && Results(ls)[i] == Entry(k, Collect(Results(ls)).value[k]);
    EntryIsPlain(ls[i]);
  }

  lemma {:induction false} CollectSkips<K, V>(rs: seq<LineResult<K, V>>)
    ensures Collect([Skip] + rs) == Collect(rs)
    ensures Collect(rs + [Skip]) == Collect(rs)
    decreases |rs|
  {
    assert (rs + [Skip])[..|rs|] == rs;
    if rs == [] {
      assert [Skip] + rs == rs + [Skip];
    } else {
      CollectSkips(rs[..|rs| - 1]);
      assert ([Skip] + rs)[..|rs|] == [Skip] + rs[..|rs| - 1];
    }
  }

  function Restrict<K, V>(m: map<K, V>, ks: seq<K>): map<K, V> {
    map k | k in m && k in ks :: m[k]
  }

  lemma RestrictToAll<K, V>(m: map<K, V>, ks: seq<K>)
    requires forall k :: k in m ==> k in ks
    ensures Restrict(m, ks) == m
  {
  }

  /** Distinct keys, one a line, collect to exactly those entries. */
  lemma {:induction false} CollectDistinct<K, V>(ks: seq<K>, m: map<K, V>, rs: seq<LineResult<K, V>>)
    requires |rs| == |ks| && forall i :: 0 <= i < |ks| ==> ks[i] in m && rs[i] == Entry(ks[i], m[ks[i]])
    ensures Collect(rs) == Some(Restrict(m, ks))
    decreases |ks|
  {
    if ks != [] {
      var n := |ks| - 1;
      CollectDistinct(ks[..n], m, rs[..n]);
      assert ks == ks[..n] + [ks[n]];
      assert Restrict(m, ks) == Restrict(m, ks[..n])[ks[n] := m[ks[n]]];
    }
  }

  lemma LineHasNoNewline(env: map<string, string>, k: string)
    requires k in env && '\n' !in k && '\n' !in env[k]
    ensures '\n' !in Line(env, k)
  {
  }

  lemma CommentIsSkipped(c: Comment)
    ensures ParseLine(c) == Skip
  {
    assert EXPORT[0] == 'e';
    assert TrimExport(c) == c;
    TrimKeepsHead(c);
  }

  lemma EmptyIsSkipped()
    ensures ParseLine("") == Skip
  {
  }

  /** The header and the last, empty line add nothing to a parse. */
  lemma RenderedLines(header: Comment, ks: seq<string>, env: map<string, string>)
    requires forall k :: k in ks ==> k in env && '\n' !in k && '\n' !in env[k]
    ensures Parse(Render(header, ks, env)) == Collect(Results(LineSeq(ks, env)))
  {
    var ls := LineSeq(ks, env);
    forall i | 0 <= i < |ls| ensures '\n' !in ls[i] {
      LineHasNoNewline(env, ks[i]);
    }
    var all := [header] + ls;
    forall i | 0 <= i < |all| ensures '\n' !in all[i] {
      assert i > 0 ==> all[i] == ls[i - 1];
    }
    SplitFile(all);
    WrappedResults(header, ls);
  }

  lemma WrappedResults(header: Comment, ls: seq<string>)
    ensures Collect(Results([header] + ls + [""])) == Collect(Results(ls))
  {
    CommentIsSkipped(header);
    EmptyIsSkipped();
    var rs, all := Results(ls), Results([header] + ls + [""]);
    var wrapped := [Skip] + (rs + [Skip]);
    assert |all| == |wrapped|;
    forall i | 0 <= i < |all| ensures all[i] == wrapped[i] {
      if 0 < i <= |ls| {
        assert ([header] + ls + [""])[i] == ls[i - 1];
        assert wrapped[i] == rs[i - 1];
      }
    }
    assert all == wrapped;
    CollectSkips(rs + [Skip]);
    CollectSkips(rs);
  }

  ghost predicate Enumerates(ks: seq<string>, env: map<string, string>) {
    && (forall k :: k in ks <==> k in env)
    && forall i, j :: 0 <= i < j < |ks| ==> ks[i] != ks[j]
  }

  lemma PlainLineAt(ks: seq<string>, env: map<string, string>, i: nat)
    requires i < |ks| && forall k :: k in ks ==> k in env
    requires ks[i] in env && PlainKey(ks[i]) && !(EXPORT <= ks[i])
    ensures Results(LineSeq(ks, env))[i] == Entry(ks[i], Unquote(TrimSpace(env[ks[i]])))
  {
    PlainLineParses(ks[i], env[ks[i]]);
  }

  /** What a parse makes of the values of plain keys. */
  function ReadBack(env: map<string, string>): map<string, string> {
    map k | k in env :: Unquote(TrimSpace(env[k]))
  }

  lemma PlainLinesCollect(ks: seq<string>, env: map<string, string>)
    requires Enumerates(ks, env)
    requires forall k :: k in env ==> PlainKey(k) && !(EXPORT <= k)
    ensures Collect(Results(LineSeq(ks, env))) == Some(ReadBack(env))
  {
    var rs := Results(LineSeq(ks, env));
    forall i | 0 <= i < |ks| ensures ks[i] in ReadBack(env) && rs[i] == Entry(ks[i], ReadBack(env)[ks[i]]) {
      assert ks[i] in ks;
      PlainLineAt(ks, env, i);
    }
    CollectDistinct(ks, ReadBack(env), rs);
    RestrictToAll(ReadBack(env), ks);
  }

  lemma LongestOf(keys: set<string>) returns (k: string)
    requires keys != {}
    ensures k in keys && forall x :: x in keys ==> |x| <= |k|
    decreases keys
  {
    var k0 :| k0 in keys;
    k := k0;
    var rest := keys - {k0};
    if rest != {} {
      var r := LongestOf(rest);
      k := if |r| > |k0| then r else k0;
      assert keys == rest + {k0};
    } else {
      assert keys == {k0};
    }
  }

  /** A key the parse yields came from itself or from a longer key with the export prefix. */
  lemma KeyOrigin(ks: seq<string>, env: map<string, string>, k: string) returns (i: nat)
    requires forall k :: k in ks ==> k in env && PlainKey(k)
    requires var p := Collect(Results(LineSeq(ks, env))); p.Some? && k in p.value
    ensures i < |ks| && ((ks[i] == k && !(EXPORT <= k)) || (EXPORT <= ks[i] && |k| < |ks[i]|))
  {
    var rs := Results(LineSeq(ks, env));
    CollectedEntryHasALine(rs, k);
    i :| 0 <= i < |rs| && rs[i] == Entry(k, Collect(rs).value[k]);
    assert ks[i] in ks;
    if EXPORT <= ks[i] {
      ExportLineShortens(ks[i], env[ks[i]]);
    } else {
      PlainLineAt(ks, env, i);
    }
  }

  /** A finite set of strings has a longest one. */
  lemma NoLongest(keys: set<string>)
    requires forall k :: k in keys ==> exists o :: o in keys && |k| < |o|
    ensures keys == {}
  {
    if keys != {} {
      var k := LongestOf(keys);
      assert false;
    }
  }

  /** Keys that all come from themselves or from longer exported keys are not exported. */
  lemma OriginsExcludeExports(keys: set<string>, origin: map<string, string>)
    requires keys == origin.Keys && forall k :: k in keys ==> origin[k] in keys
    requires forall k :: k in keys ==> !(EXPORT <= k) || (EXPORT <= origin[k] && |k| < |origin[k]|)
    ensures forall k :: k in keys ==> !(EXPORT <= k)
  {
    var bad := set k | k in keys && EXPORT <= k;
    assert forall k :: k in bad ==> origin[k] in bad && |k| < |origin[k]|;
    NoLongest(bad);
    assert forall k :: k in keys && EXPORT <= k ==> k in bad;
  }

  ghost function Origin(ks: seq<string>, env: map<string, string>, k: string): (o: string)
    requires forall k :: k in ks ==> k in env && PlainKey(k)
    requires var p := Collect(Results(LineSeq(ks, env))); p.Some? && k in p.value
    ensures o in ks && ((o == k && !(EXPORT <= k)) || (EXPORT <= o && |k| < |o|))
  {
    KeyOriginExists(ks, env, k);
    var o :| o in ks && ((o == k && !(EXPORT <= k)) || (EXPORT <= o && |k| < |o|));
    o
  }

  lemma KeyOriginExists(ks: seq<string>, env: map<string, string>, k: string)
    requires forall k :: k in ks ==> k in env && PlainKey(k)
    requires var p := Collect(Results(LineSeq(ks, env))); p.Some? && k in p.value
    ensures exists o :: o in ks && ((o == k && !(EXPORT <= k)) || (EXPORT <= o && |k| < |o|))
  {
    var i := KeyOrigin(ks, env, k);
    assert ks[i] in ks;
  }

  /** In a file that reads back as it was written, no key carries the export prefix. */
  lemma NoExportKeys(ks: seq<string>, env: map<string, string>)
    requires Enumerates(ks, env)
    requires forall k :: k in env ==> PlainKey(k)
    requires Collect(Results(LineSeq(ks, env))) == Some(env)
    ensures forall k :: k in env ==> !(EXPORT <= k)
  {
    var origin := map k | k in env :: Origin(ks, env, k);
    OriginsExcludeExports(env.Keys, origin);
  }

  lemma UnquoteTrimFixpoint(v: string)
    requires '\n' !in v
    ensures Unquote(TrimSpace(v)) == v <==> SafeValue(v)
  {
    TrimSpaceFixpoint(v);
  }

  lemma SafeReadsBack(env: map<string, string>)
    requires forall k :: k in env ==> '\n' !in env[k]
    ensures ReadBack(env) == env <==> forall k :: k in env ==> SafeValue(env[k])
  {
    forall k | k in env ensures ReadBack(env)[k] == env[k] <==> SafeValue(env[k]) {
      UnquoteTrimFixpoint(env[k]);
    }
  }

  lemma SafeRoundTrips(header: Comment, ks: seq<string>, env: map<string, string>)
    requires Enumerates(ks, env) && SafeEnv(env)
    ensures Parse(Render(header, ks, env)) == Some(env)
  {
    RenderedLines(header, ks, env);
    PlainLinesCollect(ks, env);
    SafeReadsBack(env);
  }

  lemma RoundTripIsSafe(header: Comment, ks: seq<string>, env: map<string, string>)
    requires Enumerates(ks, env) && Parse(Render(header, ks, env)) == Some(env)
    ensures SafeEnv(env)
  {
    forall k | k in env ensures PlainKey(k) && '\n' !in env[k] {
      CollectedEntriesArePlain(Split(Render(header, ks, env)), k);
    }
    RenderedLines(header, ks, env);
    NoExportKeys(ks, env);
    PlainLinesCollect(ks, env);
    SafeReadsBack(env);
  }

  /**
   * The file a fleet restart reads is the env the console wrote if and only if every entry is
   * safe; one unsafe entry, wherever it stands, changes or loses something.
   */
  lemma RoundTripIffSafe(header: Comment, ks: seq<string>, env: map<string, string>)
    requires Enumerates(ks, env)
    ensures Parse(Render(header, ks, env)) == Some(env) <==> SafeEnv(env)
  {
    if SafeEnv(env) {
      SafeRoundTrips(header, ks, env);
    }
    if Parse(Render(header, ks, env)) == Some(env) {
      RoundTripIsSafe(header, ks, env);
    }
  }

  lemma KeyListEnumerates(env: map<string, string>)
    ensures Enumerates(KeyList(env.Keys), env)
  {
    StrictlySortedNoDuplicates(KeyList(env.Keys));
  }

  lemma TextReadsBackIffSafe(header: Comment, env: map<string, string>)
    ensures Parse(TextOf(header, env)) == Some(env) <==> SafeEnv(env)
  {
    KeyListEnumerates(env);
    RoundTripIffSafe(header, KeyList(env.Keys), env);
  }

  /** With plain keys and one-line values the file reads as the trimmed and unquoted values. */
  lemma PlainTextReadsBack(header: Comment, env: map<string, string>)
    requires forall k :: k in env ==> SafeKey(k) && '\n' !in env[k]
    ensures Parse(TextOf(header, env)) == Some(ReadBack(env))
  {
    KeyListEnumerates(env);
    RenderedLines(header, KeyList(env.Keys), env);
    PlainLinesCollect(KeyList(env.Keys), env);
  }

  /** Lines can only make as many keys as there are lines. */
  lemma {:induction false} CollectSize<K, V>(rs: seq<LineResult<K, V>>)
    requires Collect(rs).Some?
    ensures |Collect(rs).value| <= |rs|
    decreases |rs|
  {
    if rs != [] {
      var prev := Collect(rs[..|rs| - 1]);
      CollectSize(rs[..|rs| - 1]);
      if rs[|rs| - 1].Entry? {
        assert prev.value[rs[|rs| - 1].key := rs[|rs| - 1].value].Keys == prev.value.Keys + {rs[|rs| - 1].key};
      }
    }
  }

  lemma DistinctKeysCount(ks: seq<string>, env: map<string, string>)
    requires Enumerates(ks, env)
    ensures |ks| == |env|
    decreases |ks|
  {
    if ks == [] {
      assert env.Keys == {};
    } else {
      var n := |ks| - 1;
      var rest := env - {ks[n]};
      assert ks[n] in ks;
      assert ks == ks[..n] + [ks[n]];
      assert Enumerates(ks[..n], rest);
      DistinctKeysCount(ks[..n], rest);
      assert env.Keys == rest.Keys + {ks[n]};
    }
  }

  /**
   * A file holds no more than was written into it: it reads back as `whole`, of which `env` is a
   * part, exactly when `env` is the whole and safe.
   */
  lemma TextReadsAsWholeIff(header: Comment, env: map<string, string>, whole: map<string, string>)
    requires forall k :: k in env ==> k in whole && whole[k] == env[k]
    ensures Parse(TextOf(header, env)) == Some(whole) <==> whole == env && SafeEnv(env)
  {
    TextReadsBackIffSafe(header, env);
    if Parse(TextOf(header, env)) == Some(whole) {
      WholeIsNoLarger(header, KeyList(env.Keys), env, whole);
      assert env.Keys <= whole.Keys;
      SubsetOfSameSize(env.Keys, whole.Keys);
      assert whole == env;
    }
  }

  lemma WholeIsNoLarger(header: Comment, ks: seq<string>, env: map<string, string>, whole: map<string, string>)
    requires ks == KeyList(env.Keys) && Parse(Render(header, ks, env)) == Some(whole)
    requires forall k :: k in env ==> k in whole && whole[k] == env[k]
    ensures |whole| <= |env|
  {
    KeyListEnumerates(env);
    forall k | k in env ensures '\n' !in k && '\n' !in env[k] {
      CollectedEntriesArePlain(Split(Render(header, ks, env)), k);
    }
    RenderedLines(header, ks, env);
    CollectSize(Results(LineSeq(ks, env)));
    DistinctKeysCount(ks, env);
  }

  lemma SubsetOfSameSize<T>(a: set<T>, b: set<T>)
    requires a <= b && |b| <= |a|
    ensures a == b
  {
    assert b == a + (b - a);
  }

  /** A quoted secret comes back without its quotes. */
  lemma QuotedSecretIsLost(header: Comment)
    ensures !SafeEnv(map["JWT_SECRET" := "\"s\""])
    ensures Parse(Render(header, ["JWT_SECRET"], map["JWT_SECRET" := "\"s\""])) != Some(map["JWT_SECRET" := "\"s\""])
  {
    var env := map["JWT_SECRET" := "\"s\""];
    assert Quoted(env["JWT_SECRET"]);
    RoundTripIffSafe(header, ["JWT_SECRET"], env);
  }

  // Files written by hand.

  /** A file parses exactly when no line of it is bad. */
  lemma {:induction false} ParsesIff<K, V>(rs: seq<LineResult<K, V>>)
    ensures Collect(rs).Some? <==> forall i :: 0 <= i < |rs| ==> !rs[i].Bad?
    decreases |rs|
  {
    if rs != [] {
      var n := |rs| - 1;
      ParsesIff(rs[..n]);
      assert forall i :: 0 <= i < n ==> rs[..n][i] == rs[i];
    }
  }

  /** Of two lines for one key the later one counts. */
  lemma {:induction false} LastEntryWins<K, V>(rs: seq<LineResult<K, V>>, i: nat)
    requires Collect(rs).Some? && i < |rs| && rs[i].Entry?
    requires forall j :: i < j < |rs| && rs[j].Entry? ==> rs[j].key != rs[i].key
    ensures rs[i].key in Collect(rs).value && Collect(rs).value[rs[i].key] == rs[i].value
    decreases |rs|
  {
    var n := |rs| - 1;
    if i < n {
      LastEntryWins(rs[..n], i);
    }
  }

  /** Which lines are skipped and which are refused, by their text without outer white space. */
  lemma LineKinds(line: string)
    requires !("export " <= line)
    ensures var l := TrimSpace(line);
            && (ParseLine(line).Skip? <==> l == "" || l[0] == '#')
            && (ParseLine(line).Bad? <==> l != "" && l[0] != '#' && ('=' !in l || l[0] == '='))
  {
    var l := TrimSpace(line);
    var i := IndexOf(l, '=');
    if l != "" {
      TrimmedHead(line);
      if i > 0 {
        TrimKeepsHead(l[..i]);
      } else if i == 0 {
        TrimSpaceFixpoint(l[..0]);
      }
    }
  }

  /** `export` in front changes nothing. */
  lemma ExportIsDropped(line: string)
    requires !("export " <= line)
    ensures ParseLine("export " + line) == ParseLine(line)
  {
    ExportComesOff("export " + line, line);
    assert TrimExport(line) == line;
  }

  lemma ExportComesOff(l: string, line: string)
    requires l == EXPORT + line
    ensures TrimExport(l) == line
  {
    assert l[..|EXPORT|] == EXPORT;
  }

  lemma QuotesComeOff(v: string, quote: char, w: string)
    requires (quote == '"' || quote == '\'') && w == [quote] + v + [quote]
    ensures Unquote(TrimSpace(w)) == v
  {
    assert w[0] == quote && w[|w| - 1] == quote;
    TrimSpaceFixpoint(w);
    assert w[1..|w| - 1] == v;
  }

  /** A quoted value is what stands between the quotes, with the white space in it. */
  lemma QuotedLineParses(k: string, v: string, quote: char)
    requires PlainKey(k) && !("export " <= k) && (quote == '"' || quote == '\'')
    ensures ParseLine(k + "=" + ([quote] + v + [quote])) == Entry(k, v)
  {
    var w := [quote] + v + [quote];
    PlainLineParses(k, w);
    QuotesComeOff(v, quote, w);
  }

  /** An unquoted value is the rest of the line, later equal signs included, without outer white space. */
  lemma BareLineParses(k: string, v: string)
    requires PlainKey(k) && !("export " <= k) && Trimmed(v)
    requires v == "" || (v[0] != '"' && v[0] != '\'')
    ensures ParseLine(k + "=" + v) == Entry(k, v)
  {
    PlainLineParses(k, v);
    BareStays(v);
  }

  lemma BareStays(v: string)
    requires Trimmed(v) && (v == "" || (v[0] != '"' && v[0] != '\''))
    ensures Unquote(TrimSpace(v)) == v
  {
    TrimSpaceFixpoint(v);
  }
}
