/**
  The file of saved UIDs (uid.c): what is written, how a line is taken apart, and what
  is loaded.
 */
module IdFile {
  import opened UidList
  import opened CText

  /** POPBUFSIZE */
  const LINE_LIMIT := 512

  datatype Saved = Saved(id: string, status: int)

  /** A host being queried, as far as the file is concerned: ctl->remotename, queryname, oldsaved. */
  datatype Query = Query(user: string, host: string, saved: seq<Saved>)

  datatype State = State(queries: seq<Query>, scratch: seq<string>)

  // ----- Searching a C string -----

  /** The first place from `from` on that holds `c`, or the end. */
  function Find(s: string, c: char, from: nat): (i: nat)
    requires from <= |s|
    ensures from <= i <= |s| && (i < |s| ==> s[i] == c) && forall j | from <= j < i :: s[j] != c
    decreases |s| - from
  {
    if from == |s| || s[from] == c then from else Find(s, c, from + 1)
  }

  /** strspn: the first place from `from` on that is not one of `set`. */
  function Span(s: string, chars: string, from: nat): (i: nat)
    requires from <= |s|
    ensures from <= i <= |s| && (i < |s| ==> s[i] !in chars) && forall j | from <= j < i :: s[j] in chars
    decreases |s| - from
  {
    if from == |s| || s[from] !in chars then from else Span(s, chars, from + 1)
  }

  /** strpbrk: the first place from `from` on that is one of `set`, or the end. */
  function Break(s: string, chars: string, from: nat): (i: nat)
    requires from <= |s|
    ensures from <= i <= |s| && (i < |s| ==> s[i] in chars) && forall j | from <= j < i :: s[j] !in chars
    decreases |s| - from
  {
    if from == |s| || s[from] in chars then from else Break(s, chars, from + 1)
  }

  /** The place after the last character of s[lo..hi] that is neither blank nor tab. */
  function TrimmedEnd(s: string, lo: nat, hi: nat): (e: nat)
    requires lo <= hi <= |s|
    ensures lo <= e <= hi && (e > lo ==> s[e - 1] !in " \t") && forall j | e <= j < hi :: s[j] in " \t"
    decreases hi
  {
    if hi == lo || s[hi - 1] !in " \t" then hi else TrimmedEnd(s, lo, hi - 1)
  }

  /** The last place in s[lo..hi] that holds `c`. */
  function FindLast(s: string, c: char, lo: nat, hi: nat): (i: nat)
    requires lo <= hi <= |s| && c in s[lo..hi]
    ensures lo <= i < hi && s[i] == c && forall j | i < j < hi :: s[j] != c
    decreases hi
  {
    if s[hi - 1] == c then hi - 1 else FindLast(s, c, lo, hi - 1)
  }

  // ----- One line -----

  datatype Line = Line(user: string, host: string, id: string)

  /** The five places where a line is cut. */
  datatype Cuts = Cuts(user: nat, at: nat, hostEnd: nat, id: nat, idEnd: nat)

  /** user@host, blank, id; the blank is the first after the first "@", the host begins after the last. */
  function CutsOf(s: string): (c: Option<Cuts>)
    ensures c.Some? ==>
      var k := c.value;
      k.user <= k.at < k.hostEnd < k.id <= k.idEnd <= |s|
  {
    var user := Span(s, " \t", 0);
    var first := Find(s, '@', user);
    if first == |s| then None else
      var blank := Find(s, ' ', first);
      if blank == |s| then None else
        var hostEnd := TrimmedEnd(s, first, blank);
        var id := Span(s, " ", blank);
        assert s[user..hostEnd][first - user] == '@';
        Some(Cuts(user, FindLast(s, '@', user, hostEnd), hostEnd, id, Break(s, " \t\n", id)))
  }

  function LineOf(s: string): Option<Line> {
    var c := CutsOf(s);
    if c.None? then None else
      var k := c.value;
      Some(Line(s[k.user..k.at], s[k.at + 1..k.hostEnd], s[k.id..k.idEnd]))
  }

  /** What write_saved_lists prints for one id. */
  function Printed(user: string, host: string, id: string): string {
    user + "@" + host + " " + id + "\n"
  }

  /** The names and ids the parser can take apart again. */
  predicate Nameable(user: string, host: string) {
    && (user != "" ==> user[0] !in " \t") && '\n' !in user && '\0' !in user
    && (forall i, j | 0 <= i < j < |user| :: user[i] == '@' ==> user[j] != ' ')
    && forall i | 0 <= i < |host| :: host[i] !in " \t\n@" && host[i] != '\0'
  }

  predicate Storable(id: string) {
    id != "" && forall i | 0 <= i < |id| :: id[i] !in " \t\n" && id[i] != '\0'
  }

  /** Where the three names are in a printed line. */
  lemma PrintedChars(user: string, host: string, id: string)
    ensures
      var s := Printed(user, host, id);
      var u, h := |user|, |user| + 1 + |host|;
      && |s| == h + |id| + 2 && s[u] == '@' && s[h] == ' ' && s[h + 1 + |id|] == '\n'
      && s[..u] == user && s[u + 1..h] == host && s[h + 1..h + 1 + |id|] == id
      && (forall i | 0 <= i < u :: s[i] == user[i])
      && (forall i | u < i < h :: s[i] == host[i - u - 1])
      && (forall i | h < i < h + 1 + |id| :: s[i] == id[i - h - 1])
  {
  }

  /** The first "@" is in the user or behind it; the first blank after that is behind the host. */
  lemma PrintedBlank(user: string, host: string, id: string)
    requires Nameable(user, host)
    ensures
      var s := Printed(user, host, id);
      var u, h := |user|, |user| + 1 + |host|;
      && Span(s, " \t", 0) == 0 && Find(s, '@', 0) <= u && Find(s, ' ', Find(s, '@', 0)) == h
  {
    hide Printed, Find, Span, Break, TrimmedEnd, FindLast;
    var s := Printed(user, host, id);
    var u, h := |user|, |user| + 1 + |host|;
    PrintedChars(user, host, id);
    assert s[0] !in " \t" by {
      assert u > 0 ==> s[0] == user[0];
    }
    var first := Find(s, '@', 0);
    assert first <= u;
    forall j | first < j < h
      ensures s[j] != ' '
    {
      if j < u {
        assert s[first] == user[first] && s[j] == user[j];
      } else if j > u {
        assert s[j] == host[j - u - 1];
      }
    }
  }

  lemma PrintedHost(user: string, host: string, id: string, first: nat)
    requires Nameable(user, host) && first <= |user|
    ensures
      var s := Printed(user, host, id);
      var u, h := |user|, |user| + 1 + |host|;
      && |s| > h && TrimmedEnd(s, first, h) == h && s[0..h][u] == '@' && FindLast(s, '@', 0, h) == u
  {
    hide Printed, Find, Span, Break, TrimmedEnd, FindLast;
    var s := Printed(user, host, id);
    var u, h := |user|, |user| + 1 + |host|;
    PrintedChars(user, host, id);
    assert s[h - 1] !in " \t" by {
      assert h - 1 > u ==> s[h - 1] == host[h - 1 - u - 1];
    }
    assert s[0..h][u] == '@';
    forall j | u < j < h
      ensures s[j] != '@'
    {
      assert s[j] == host[j - u - 1];
    }
  }

  lemma PrintedId(user: string, host: string, id: string)
    requires Storable(id)
    ensures
      var s := Printed(user, host, id);
      var h := |user| + 1 + |host|;
      && |s| > h + 1 && Span(s, " ", h) == h + 1 && Break(s, " \t\n", h + 1) == h + 1 + |id|
  {
    hide Printed, Find, Span, Break, TrimmedEnd, FindLast;
    var s := Printed(user, host, id);
    var u, h := |user|, |user| + 1 + |host|;
    PrintedChars(user, host, id);
    assert s[h + 1] !in " " by {
      assert id != "" ==> s[h + 1] == id[0];
    }
    forall j | h + 1 <= j < h + 1 + |id|
      ensures s[j] !in " \t\n"
    {
      assert s[j] == id[j - h - 1];
    }
  }

  lemma PrintedCuts(user: string, host: string, id: string)
    requires Nameable(user, host) && Storable(id)
    ensures
      var u, h := |user|, |user| + 1 + |host|;
      CutsOf(Printed(user, host, id)) == Some(Cuts(0, u, h, h + 1, h + 1 + |id|))
  {
    hide Printed, Find, Span, Break, TrimmedEnd, FindLast;
    PrintedChars(user, host, id);
    PrintedBlank(user, host, id);
    PrintedHost(user, host, id, Find(Printed(user, host, id), '@', 0));
    PrintedId(user, host, id);
  }

  lemma PrintedLine(user: string, host: string, id: string)
    requires Nameable(user, host) && Storable(id)
    ensures LineOf(Printed(user, host, id)) == Some(Line(user, host, id))
  {
    hide Printed, CutsOf;
    PrintedCuts(user, host, id);
    PrintedChars(user, host, id);
    assert Printed(user, host, id)[0..|user|] == Printed(user, host, id)[..|user|];
  }

  // ----- Hosts -----

  /** strcasecmp(a, b) == 0 */
  predicate SameIgnoringCase(a: string, b: string) {
    |a| == |b| && forall i | 0 <= i < |a| :: Lower(a[i]) == Lower(b[i])
  }

  predicate Matches(q: Query, user: string, host: string) {
    SameIgnoringCase(host, q.host) && SameIgnoringCase(user, q.user)
  }

  /** The first host that a line belongs to, or the number of hosts. */
  function Owner(queries: seq<Query>, user: string, host: string): (k: nat)
    ensures k <= |queries| && (k < |queries| ==> Matches(queries[k], user, host))
    ensures forall j | 0 <= j < k :: !Matches(queries[j], user, host)
  {
    if queries == [] || Matches(queries[0], user, host) then 0 else 1 + Owner(queries[1..], user, host)
  }

  // ----- Loading -----

  function WithId(q: Query, id: string): Query {
    q.(saved := q.saved + [Saved(id, UID_SEEN)])
  }

  function LoadLine(st: State, buf: string): State {
    var l := LineOf(buf);
    if l.None? then st else
      var k := Owner(st.queries, l.value.user, l.value.host);
      if k < |st.queries| then st.(queries := st.queries[k := WithId(st.queries[k], l.value.id)])
      else st.(scratch := st.scratch + [buf])
  }

  function LoadLines(st: State, lines: seq<string>): State
    decreases |lines|
  {
    if lines == [] then st else LoadLine(LoadLines(st, lines[..|lines| - 1]), lines[|lines| - 1])
  }

  /** Where fgets stops. */
  function ChunkEnd(file: string): (k: nat)
    requires file != ""
    ensures 0 < k <= |file|
  {
    var n := Find(file, '\n', 0);
    var k := if n < |file| then n + 1 else |file|;
    if k < LINE_LIMIT then k else LINE_LIMIT - 1
  }

  function Chunks(file: string): seq<string>
    decreases |file|
  {
    if file == "" then [] else [file[..ChunkEnd(file)]] + Chunks(file[ChunkEnd(file)..])
  }

  function Cleared(queries: seq<Query>): (c: seq<Query>)
    ensures |c| == |queries|
  {
    seq(|queries|, i requires 0 <= i < |queries| => queries[i].(saved := []))
  }

  /** initialize_saved_lists: no file is an empty one. */
  function Load(queries: seq<Query>, scratch: seq<string>, file: Option<string>): State {
    LoadLines(State(Cleared(queries), scratch), if file.Some? then Chunks(file.value) else [])
  }

  // ----- Writing -----

  predicate Written(r: Saved) {
    r.status == UID_SEEN || r.status == UID_DELETED
  }

  function QueryLines(user: string, host: string, saved: seq<Saved>): seq<string>
    decreases |saved|
  {
    if saved == [] then [] else
      var n := |saved| - 1;
      QueryLines(user, host, saved[..n]) + if Written(saved[n]) then [Printed(user, host, saved[n].id)] else []
  }

  function Lines(queries: seq<Query>): seq<string>
    decreases |queries|
  {
    if queries == [] then [] else
      var n := |queries| - 1;
      Lines(queries[..n]) + QueryLines(queries[n].user, queries[n].host, queries[n].saved)
  }

  function Flattened(lines: seq<string>): string {
    if lines == [] then "" else lines[0] + Flattened(lines[1..])
  }

  /** write_saved_lists: the file is removed when there is nothing to put in it. */
  function Write(st: State): Option<string> {
    var lines := Lines(st.queries) + st.scratch;
    if lines == [] then None else Some(Flattened(lines))
  }

  // ----- Saving, then loading -----

  /** The ids that are written, all seen. */
  function Kept(saved: seq<Saved>): seq<Saved>
    decreases |saved|
  {
    if saved == [] then [] else
      var n := |saved| - 1;
      Kept(saved[..n]) + if Written(saved[n]) then [Saved(saved[n].id, UID_SEEN)] else []
  }

  /** How often the id is there with this mark. */
  function Count(saved: seq<Saved>, id: string, status: int): nat
    decreases |saved|
  {
    if saved == [] then 0
    else Count(saved[..|saved| - 1], id, status) + if saved[|saved| - 1] == Saved(id, status) then 1 else 0
  }

  /** Just the entries seen and those deleted but not yet expunged are kept, and all as seen. */
  lemma {:induction false} KeptExactly(saved: seq<Saved>, id: string)
    ensures Count(Kept(saved), id, UID_SEEN) == Count(saved, id, UID_SEEN) + Count(saved, id, UID_DELETED)
    ensures forall r <- Kept(saved) :: r.status == UID_SEEN
    decreases |saved|
  {
    if saved != [] {
      var n := |saved| - 1;
      KeptExactly(saved[..n], id);
      OneKept(saved, Kept(saved[..n]));
      assert saved == saved[..n] + [saved[n]];
      hide Kept, Count;
      CountOneMore(saved[..n], saved[n], id, UID_SEEN);
      CountOneMore(saved[..n], saved[n], id, UID_DELETED);
      CountOneMore(Kept(saved[..n]), Saved(saved[n].id, UID_SEEN), id, UID_SEEN);
    }
  }

  lemma OneKept(saved: seq<Saved>, before: seq<Saved>)
    requires saved != [] && before == Kept(saved[..|saved| - 1])
    ensures
      var last := saved[|saved| - 1];
      Kept(saved) == if last.status == UID_SEEN || last.status == UID_DELETED then before + [Saved(last.id, UID_SEEN)]
        else before
  {
    assert before + [] == before;
  }

  lemma CountOneMore(saved: seq<Saved>, r: Saved, id: string, status: int)
    ensures Count(saved + [r], id, status) == Count(saved, id, status) + if r == Saved(id, status) then 1 else 0
  {
    assert (saved + [r])[..|saved|] == saved;
  }

  function AllKept(queries: seq<Query>): (c: seq<Query>)
    ensures |c| == |queries|
  {
    seq(|queries|, i requires 0 <= i < |queries| => queries[i].(saved := Kept(queries[i].saved)))
  }

  /** A line that fgets reads whole. */
  predicate WholeLine(l: string) {
    0 < |l| < LINE_LIMIT && l[|l| - 1] == '\n' && '\n' !in l[..|l| - 1]
  }

  predicate Fits(q: Query) {
    Nameable(q.user, q.host) &&
    forall r <- q.saved :: Written(r) ==> Storable(r.id) && |Printed(q.user, q.host, r.id)| < LINE_LIMIT
  }

  /** No two hosts have the same user and name but for case. */
  predicate Distinct(queries: seq<Query>) {
    forall k | 0 <= k < |queries| :: Owner(queries, queries[k].user, queries[k].host) == k
  }

  /** A well-formed line of a host that is not being queried. */
  predicate Foreign(queries: seq<Query>, l: string) {
    WholeLine(l) && LineOf(l).Some? && Owner(queries, LineOf(l).value.user, LineOf(l).value.host) == |queries|
  }

  predicate Good(st: State) {
    && Distinct(st.queries) && (forall q <- st.queries :: Fits(q))
    && forall l <- st.scratch :: Foreign(st.queries, l)
  }

  lemma {:induction false} LoadLinesConcat(st: State, a: seq<string>, b: seq<string>)
    ensures LoadLines(st, a + b) == LoadLines(LoadLines(st, a), b)
    decreases |b|
  {
    hide LoadLine;
    if b == [] {
      assert a + b == a;
    } else {
      var n := |b| - 1;
      assert (a + b)[..|a| + n] == a + b[..n];
      LoadLinesConcat(st, a, b[..n]);
    }
  }

  lemma FirstNewline(l: string, rest: string)
    requires WholeLine(l)
    ensures Find(l + rest, '\n', 0) == |l| - 1
  {
    var n := |l| - 1;
    assert (l + rest)[n] == '\n';
    forall j | 0 <= j < n
      ensures (l + rest)[j] != '\n'
    {
      assert l[..n][j] == l[j];
    }
  }

  lemma {:induction false} ChunksOfLines(lines: seq<string>)
    requires forall l <- lines :: WholeLine(l)
    ensures Chunks(Flattened(lines)) == lines
  {
    if lines != [] {
      var l, rest := lines[0], Flattened(lines[1..]);
      ChunksOfLines(lines[1..]);
      var file := l + rest;
      FirstNewline(l, rest);
      assert ChunkEnd(file) == |l| && file[..|l|] == l && file[|l|..] == rest;
    }
  }

  lemma PrintedWhole(user: string, host: string, id: string)
    requires Nameable(user, host) && Storable(id) && |Printed(user, host, id)| < LINE_LIMIT
    ensures WholeLine(Printed(user, host, id))
  {
    var s := Printed(user, host, id);
    PrintedChars(user, host, id);
    hide Printed;
    var u, h := |user|, |user| + 1 + |host|;
    forall j | 0 <= j < |s| - 1
      ensures s[j] != '\n'
    {
      if j < u {
        assert s[j] == user[j];
      } else if u < j < h {
        assert s[j] == host[j - u - 1];
      } else if j > h {
        assert s[j] == id[j - h - 1];
      }
    }
  }

  lemma {:induction false} QueryLinesWhole(q: Query, n: nat)
    requires Fits(q) && n <= |q.saved|
    ensures forall l <- QueryLines(q.user, q.host, q.saved[..n]) :: WholeLine(l)
  {
    if n > 0 {
      QueryLinesWhole(q, n - 1);
      assert q.saved[..n][..n - 1] == q.saved[..n - 1];
      var r := q.saved[n - 1];
      if Written(r) {
        PrintedWhole(q.user, q.host, r.id);
      }
    }
  }

  lemma {:induction false} LinesWhole(queries: seq<Query>)
    requires forall q <- queries :: Fits(q)
    ensures forall l <- Lines(queries) :: WholeLine(l)
    decreases |queries|
  {
    if queries != [] {
      var n := |queries| - 1;
      LinesWhole(queries[..n]);
      QueryLinesWhole(queries[n], |queries[n].saved|);
      assert queries[n].saved[..|queries[n].saved|] == queries[n].saved;
    }
  }

  // ----- What loading the written lines does -----

  /** Who owns a line depends on the names of the hosts alone. */
  ghost predicate SameNames(a: seq<Query>, b: seq<Query>) {
    |a| == |b| && forall i | 0 <= i < |a| :: a[i].user == b[i].user && a[i].host == b[i].host
  }

  lemma {:induction false} SameOwner(a: seq<Query>, b: seq<Query>, user: string, host: string)
    requires SameNames(a, b)
    ensures Owner(a, user, host) == Owner(b, user, host)
  {
    if a != [] {
      SameOwner(a[1..], b[1..], user, host);
    }
  }

  lemma NoLines(st: State)
    ensures LoadLines(st, []) == st
  {
  }

  lemma OneLineMore(st: State, lines: seq<string>, l: string)
    ensures LoadLines(st, lines + [l]) == LoadLine(LoadLines(st, lines), l)
  {
    hide LoadLine;
    assert (lines + [l])[..|lines|] == lines;
  }

  /** `st` with host k's list as given. */
  function WithSaved(st: State, k: nat, saved: seq<Saved>): State
    requires k < |st.queries|
  {
    st.(queries := st.queries[k := st.queries[k].(saved := saved)])
  }

  lemma LoadPrinted(st: State, q: Query, k: nat, saved: seq<Saved>, id: string)
    requires Nameable(q.user, q.host) && Storable(id) && k < |st.queries| && Owner(st.queries, q.user, q.host) == k
    ensures LoadLine(WithSaved(st, k, saved), Printed(q.user, q.host, id)) == WithSaved(st, k,
      saved + [Saved(id, UID_SEEN)])
  {
    hide Printed, LineOf, Matches;
    PrintedLine(q.user, q.host, id);
    SameOwner(st.queries, WithSaved(st, k, saved).queries, q.user, q.host);
  }

  /** Owner k is given the first n ids that were written for it. */
  lemma {:induction false} LoadQueryLines(st: State, q: Query, k: nat, n: nat)
    requires Fits(q) && k < |st.queries| && n <= |q.saved| && Owner(st.queries, q.user, q.host) == k
    ensures LoadLines(st, QueryLines(q.user, q.host, q.saved[..n])) ==
      WithSaved(st, k, st.queries[k].saved + Kept(q.saved[..n]))
  {
    hide Printed, LineOf, Matches, LoadLine, Owner;
    var was := st.queries[k].saved;
    if n == 0 {
      assert q.saved[..0] == [] && was + [] == was;
      assert st.queries[k := st.queries[k]] == st.queries;
    } else {
      LoadQueryLines(st, q, k, n - 1);
      assert q.saved[..n][..n - 1] == q.saved[..n - 1];
      var r := q.saved[n - 1];
      var kept := Kept(q.saved[..n - 1]);
      if Written(r) {
        LoadPrinted(st, q, k, was + kept, r.id);
        OneLineMore(st, QueryLines(q.user, q.host, q.saved[..n - 1]), Printed(q.user, q.host, r.id));
        assert was + kept + [Saved(r.id, UID_SEEN)] == was + (kept + [Saved(r.id, UID_SEEN)]);
      } else {
        assert Kept(q.saved[..n]) == kept;
        assert QueryLines(q.user, q.host, q.saved[..n]) == QueryLines(q.user, q.host, q.saved[..n - 1]);
      }
    }
  }

  /** The first n hosts have been loaded. */
  function Partly(queries: seq<Query>, n: nat): (p: seq<Query>)
    requires n <= |queries|
    ensures |p| == |queries| && SameNames(p, queries)
  {
    seq(|queries|, i requires 0 <= i < |queries| =>
      queries[i].(saved := if i < n then Kept(queries[i].saved) else []))
  }

  lemma {:induction false} LoadHosts(queries: seq<Query>, scratch: seq<string>, n: nat)
    requires Distinct(queries) && (forall q <- queries :: Fits(q)) && n <= |queries|
    ensures LoadLines(State(Cleared(queries), scratch), Lines(queries[..n])) == State(Partly(queries, n), scratch)
  {
    hide LoadLine, Kept, QueryLines, Owner, Fits, LoadLines;
    var start := State(Cleared(queries), scratch);
    if n == 0 {
      assert Partly(queries, 0) == Cleared(queries);
      assert Lines(queries[..0]) == [];
      NoLines(start);
    } else {
      LoadHosts(queries, scratch, n - 1);
      var half, q := State(Partly(queries, n - 1), scratch), queries[n - 1];
      assert queries[..n][..n - 1] == queries[..n - 1];
      var lines := QueryLines(q.user, q.host, q.saved);
      assert Lines(queries[..n]) == Lines(queries[..n - 1]) + lines;
      LoadLinesConcat(start, Lines(queries[..n - 1]), lines);
      SameOwner(queries, half.queries, q.user, q.host);
      LoadQueryLines(half, q, n - 1, |q.saved|);
      assert q.saved[..|q.saved|] == q.saved;
      assert half.queries[n - 1].saved + Kept(q.saved) == Kept(q.saved);
      assert WithSaved(half, n - 1, Kept(q.saved)).queries == Partly(queries, n);
    }
  }

  lemma {:induction false} LoadScratch(st: State, lines: seq<string>)
    requires forall l <- lines :: Foreign(st.queries, l)
    ensures LoadLines(st, lines) == st.(scratch := st.scratch + lines)
    decreases |lines|
  {
    if lines == [] {
      assert st.scratch + [] == st.scratch;
    } else {
      var n := |lines| - 1;
      LoadScratch(st, lines[..n]);
      assert lines[n] in lines && lines == lines[..n] + [lines[n]];
      assert st.scratch + lines[..n] + [lines[n]] == st.scratch + lines;
    }
  }

  /** What is left after saving and loading: the ids kept, all seen, and the other hosts' lines. */
  function Reloaded(st: State): State {
    State(AllKept(st.queries), st.scratch)
  }

  /** Each host regains its seen and deleted ids in order; lines of other hosts come back byte for byte. */
  lemma SavedThenLoaded(st: State)
    requires Good(st)
    ensures Load(st.queries, [], Write(st)) == Reloaded(st)
  {
    hide LoadLine, Kept, Lines, Chunks, Flattened, LineOf;
    var start := State(Cleared(st.queries), []);
    var own := Lines(st.queries);
    LinesWhole(st.queries);
    ChunksOfLines(own + st.scratch);
    LoadHosts(st.queries, [], |st.queries|);
    assert st.queries[..|st.queries|] == st.queries;
    LoadLinesConcat(start, own, st.scratch);
    var half := State(Partly(st.queries, |st.queries|), []);
    forall l <- st.scratch
      ensures Foreign(half.queries, l)
    {
      SameOwner(st.queries, half.queries, LineOf(l).value.user, LineOf(l).value.host);
    }
    LoadScratch(half, st.scratch);
    assert [] + st.scratch == st.scratch;
    assert Partly(st.queries, |st.queries|) == AllKept(st.queries);
  }

  // ----- Any number of cycles -----

  lemma {:induction false} KeptAgain(saved: seq<Saved>)
    ensures Kept(Kept(saved)) == Kept(saved)
    decreases |saved|
  {
    if saved != [] {
      var n := |saved| - 1;
      KeptAgain(saved[..n]);
      if Written(saved[n]) {
        var kept, one := Kept(saved[..n]), Saved(saved[n].id, UID_SEEN);
        assert (kept + [one])[..|kept|] == kept;
      } else {
        assert Kept(saved) == Kept(saved[..n]);
      }
    }
  }

  lemma {:induction false} KeptFits(q: Query, n: nat)
    requires Fits(q) && n <= |q.saved|
    ensures Fits(q.(saved := Kept(q.saved[..n])))
  {
    hide Printed, Nameable, Storable;
    if n > 0 {
      KeptFits(q, n - 1);
      assert q.saved[..n][..n - 1] == q.saved[..n - 1];
      var r := q.saved[n - 1];
      assert r in q.saved;
    }
  }

  lemma ReloadedGood(st: State)
    requires Good(st)
    ensures Good(Reloaded(st)) && Reloaded(Reloaded(st)) == Reloaded(st)
  {
    hide Kept;
    var q := AllKept(st.queries);
    forall k | 0 <= k < |q|
      ensures Kept(q[k].saved) == q[k].saved && Fits(q[k]) && Owner(q, q[k].user, q[k].host) == k
    {
      KeptAgain(st.queries[k].saved);
      KeptFits(st.queries[k], |st.queries[k].saved|);
      assert st.queries[k].saved[..|st.queries[k].saved|] == st.queries[k].saved;
      SameOwner(st.queries, q, q[k].user, q[k].host);
    }
    forall l <- st.scratch
      ensures Foreign(q, l)
    {
      SameOwner(st.queries, q, LineOf(l).value.user, LineOf(l).value.host);
    }
    assert AllKept(q) == q;
  }

  /** The state after n runs that only save and load. */
  function After(st: State, n: nat): State {
    if n == 0 then st else
      var s := After(st, n - 1);
      Load(s.queries, [], Write(s))
  }

  /** Nothing more is lost in any further cycle. */
  lemma {:induction false} SurvivesCycles(st: State, n: nat)
    requires Good(st) && n > 0
    ensures After(st, n) == Reloaded(st)
  {
    if n == 1 {
      SavedThenLoaded(st);
      assert After(st, 0) == st;
    } else {
      SurvivesCycles(st, n - 1);
      ReloadedGood(st);
      SavedThenLoaded(Reloaded(st));
    }
  }
}
