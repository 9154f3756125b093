/**
  Loading and saving the file of UIDs, as uid.c does it: lines are cut by overwriting
  bytes of the buffer, and put together again if the line is to be kept.
 */
module SavedLists {
  import opened IdFile
  import opened CText

  /** The C string that begins at `from`. */
  function CString(b: seq<char>, from: nat): string
    requires from <= |b|
  {
    b[from..Find(b, '\0', from)]
  }

  /** The buffer `b` holds the string `s`. */
  ghost predicate Holds(b: seq<char>, s: string) {
    |s| < |b| && b[|s|] == '\0' && '\0' !in s && forall i | 0 <= i < |s| :: b[i] == s[i]
  }

  /** The buffer once it is cut: each of the three names is a C string. */
  function CutUp(b: seq<char>, c: Cuts): (r: seq<char>)
    requires c.user <= c.at < c.hostEnd < c.id <= c.idEnd < |b|
    ensures |r| == |b|
  {
    b[c.hostEnd := '\0'][c.idEnd := '\0'][c.at := '\0']
  }

  lemma CutStrings(b: seq<char>, s: string, c: Cuts)
    requires Holds(b, s) && CutsOf(s) == Some(c)
    ensures
      var r := CutUp(b, c);
      && CString(r, c.user) == s[c.user..c.at]
      && CString(r, c.at + 1) == s[c.at + 1..c.hostEnd]
      && CString(r, c.id) == s[c.id..c.idEnd]
  {
    hide CutsOf;
    var r := CutUp(b, c);
    assert forall i | 0 <= i < |s| :: s[i] in s;
    EndsAt(r, c.user, c.at);
    EndsAt(r, c.at + 1, c.hostEnd);
    EndsAt(r, c.id, c.idEnd);
  }

  lemma EndsAt(r: seq<char>, from: nat, end: nat)
    requires from <= end < |r| && r[end] == '\0' && forall i | from <= i < end :: r[i] != '\0'
    ensures Find(r, '\0', from) == end
  {
  }

  lemma {:induction false} FlattenedConcat(a: seq<string>, b: seq<string>)
    ensures Flattened(a + b) == Flattened(a) + Flattened(b)
  {
    if a == [] {
      assert a + b == b;
    } else {
      FlattenedConcat(a[1..], b);
      assert (a + b)[1..] == a[1..] + b;
      assert a[0] + (Flattened(a[1..]) + Flattened(b)) == a[0] + Flattened(a[1..]) + Flattened(b);
    }
  }

  lemma OneMoreFlattened(a: seq<string>, l: string)
    ensures Flattened(a + [l]) == Flattened(a) + l
  {
    FlattenedConcat(a, [l]);
    assert [l][1..] == [] && l + "" == l;
  }

  lemma NoneFlattened()
    ensures Flattened([]) == ""
  {
  }

  lemma OneMoreLine(start: State, lines: seq<string>, l: string, rest: seq<string>)
    ensures LoadLines(start, lines + [l]) == LoadLine(LoadLines(start, lines), l)
    ensures lines + ([l] + rest) == lines + [l] + rest
  {
    OneLineMore(start, lines, l);
  }

  lemma WholeString(b: seq<char>, s: string)
    requires Holds(b, s)
    ensures CString(b, 0) == s
  {
    assert forall i | 0 <= i < |s| :: s[i] in s;
    EndsAt(b, 0, |s|);
    assert b[0..|s|] == s;
  }

  lemma HoldsLength(b: seq<char>, s: string)
    requires Holds(b, s)
    ensures |s| < |b|
  {
  }

  /** From `from` on, the buffer holds the rest of the string `s`. */
  ghost predicate HoldsFrom(b: seq<char>, s: string, from: nat) {
    && from <= |s| < |b| && b[|s|] == '\0' && forall i | from <= i < |s| :: b[i] == s[i] && b[i] != '\0'
  }

  method Strchr(buf: array<char>, c: char, from: nat, ghost s: string) returns (i: nat)
    requires HoldsFrom(buf[..], s, from) && c != '\0'
    ensures i == Find(s, c, from)
  {
    i := from;
    while buf[i] != '\0' && buf[i] != c
      invariant from <= i <= |s| && Find(s, c, from) == Find(s, c, i)
      decreases |s| - i
    {
      i := i + 1;
    }
  }

  method Strspn(buf: array<char>, chars: string, from: nat, ghost s: string) returns (i: nat)
    requires HoldsFrom(buf[..], s, from) && '\0' !in chars
    ensures i == Span(s, chars, from)
  {
    i := from;
    while buf[i] in chars
      invariant from <= i <= |s| && Span(s, chars, from) == Span(s, chars, i)
      decreases |s| - i
    {
      i := i + 1;
    }
  }

  method Strpbrk(buf: array<char>, chars: string, from: nat, ghost s: string) returns (i: nat)
    requires HoldsFrom(buf[..], s, from) && '\0' !in chars
    ensures i == Break(s, chars, from)
  {
    i := from;
    while buf[i] != '\0' && buf[i] !in chars
      invariant from <= i <= |s| && Break(s, chars, from) == Break(s, chars, i)
      decreases |s| - i
    {
      i := i + 1;
    }
  }

  /** strrchr on a string that holds `c`. */
  method Strrchr(buf: array<char>, c: char, from: nat, ghost s: string) returns (last: nat)
    requires HoldsFrom(buf[..], s, from) && c in s[from..] && c != '\0'
    ensures from <= last < |s| && s[last] == c && forall j | last < j < |s| :: s[j] != c
  {
    var i := from;
    last := from;
    ghost var k :| from <= k < |s| && s[k] == c;
    while buf[i] != '\0'
      invariant from <= i <= |s| && from <= last
      invariant if i > k then last < i && s[last] == c else last <= i
      invariant forall j | last < j < i :: s[j] != c
      decreases |s| - i
    {
      if buf[i] == c {
        last := i;
      }
      i := i + 1;
    }
  }

  /** The place behind the last character before `blank` that is neither blank nor tab. */
  method EndOfHost(buf: array<char>, user: nat, first: nat, blank: nat, ghost s: string) returns (e: nat)
    requires user <= first < blank < |s| && s[first] == '@' && s[blank] == ' ' && HoldsFrom(buf[..], s, user)
    ensures e == TrimmedEnd(s, first, blank)
  {
    var d := blank;
    while d >= user && (buf[d] == ' ' || buf[d] == '\t')
      invariant first <= d <= blank && (d < blank ==> TrimmedEnd(s, first, d + 1) == TrimmedEnd(s, first, blank))
      decreases d
    {
      d := d - 1;
    }
    e := d + 1;
  }

  lemma HoldsAll(b: seq<char>, s: string)
    requires Holds(b, s)
    ensures HoldsFrom(b, s, 0)
  {
    assert forall i | 0 <= i < |s| :: s[i] in s;
  }

  lemma HoldsLater(b: seq<char>, s: string, i: nat, j: nat)
    requires HoldsFrom(b, s, i) && i <= j <= |s|
    ensures HoldsFrom(b, s, j)
  {
  }

  /** Cutting at `h` leaves what is behind it, and ends the string there. */
  lemma HoldsCut(b: seq<char>, r: seq<char>, s: string, user: nat, h: nat, id: nat)
    requires HoldsFrom(b, s, user) && user <= h < id <= |s| && r == b[h := '\0']
    ensures HoldsFrom(r, s, id)
  {
  }

  lemma HoldsUser(b: seq<char>, r: seq<char>, s: string, user: nat, h: nat, idEnd: nat, first: nat)
    requires HoldsFrom(b, s, user) && user <= first < h < idEnd <= |s| && s[first] == '@'
    requires r == b[h := '\0'][idEnd := '\0']
    ensures HoldsFrom(r, s[..h], user) && '@' in s[..h][user..]
  {
    assert s[..h][user..][first - user] == '@';
  }

  lemma LastIs(s: string, c: char, lo: nat, hi: nat, k: nat)
    requires lo <= k < hi <= |s| && s[k] == c && c in s[lo..hi] && forall j | k < j < hi :: s[j] != c
    ensures FindLast(s, c, lo, hi) == k
  {
  }

  /** Where the user begins, and the host ends, and the id begins. */
  method FindParts(buf: array<char>, ghost s: string)
      returns (found: bool, user: nat, hostEnd: nat, id: nat, ghost first: nat)
    requires HoldsFrom(buf[..], s, 0)
    ensures found <==> CutsOf(s).Some?
    ensures found ==>
      && user <= first < hostEnd < id <= |s| && s[first] == '@'
      && CutsOf(s).value.user == user && CutsOf(s).value.hostEnd == hostEnd && CutsOf(s).value.id == id
  {
    hide Find, Span, Break, TrimmedEnd, FindLast;
    ghost var b := buf[..];
    found, hostEnd, id, first := false, 0, 0, 0;
    user := Strspn(buf, " \t", 0, s);
    HoldsLater(b, s, 0, user);
    var atsign := Strchr(buf, '@', user, s);
    if buf[atsign] == '\0' {
      return;
    }
    HoldsLater(b, s, user, atsign);
    var blank := Strchr(buf, ' ', atsign, s);
    if buf[blank] == '\0' {
      return;
    }
    hostEnd := EndOfHost(buf, user, atsign, blank, s);
    HoldsLater(b, s, user, blank);
    id := Strspn(buf, " ", blank, s);
    found, first := true, atsign;
  }

  lemma CutsAre(s: string, c: Cuts)
    requires CutsOf(s).Some? && CutsOf(s).value.user == c.user && CutsOf(s).value.hostEnd == c.hostEnd
    requires CutsOf(s).value.id == c.id && c.idEnd == Break(s, " \t\n", c.id)
    requires c.user <= c.at < c.hostEnd && s[c.at] == '@' && forall j | c.at < j < c.hostEnd :: s[j] != '@'
    ensures CutsOf(s) == Some(c)
  {
    hide Find, Span, Break, TrimmedEnd;
    LastIs(s, '@', c.user, c.hostEnd, c.at);
  }

  /** Takes a line apart: NULs behind the user, the host and the id, and what was there. */
  method CutLine(buf: array<char>, ghost s: string) returns (cuts: Option<Cuts>, saved1: char, saved2: char,
    saved3: char)
    requires Holds(buf[..], s)
    modifies buf
    ensures cuts == CutsOf(s)
    ensures cuts.None? ==> buf[..] == old(buf[..])
    ensures cuts.Some? ==>
      var c := cuts.value;
      && c.idEnd < buf.Length && buf[..] == CutUp(old(buf[..]), c)
      && saved1 == old(buf[c.hostEnd]) && saved2 == old(buf[c.idEnd]) && saved3 == old(buf[c.at])
  {
    hide Find, Span, Break, TrimmedEnd, FindLast, Holds, CutsOf;
    ghost var b := buf[..];
    HoldsAll(b, s);
    cuts, saved1, saved2, saved3 := None, '\0', '\0', '\0';
    var found, user, hostEnd, id, first := FindParts(buf, s);
    if !found {
      return;
    }
    HoldsLater(b, s, 0, user);
    saved1 := buf[hostEnd];
    buf[hostEnd] := '\0';
    HoldsCut(b, buf[..], s, user, hostEnd, id);
    hide HoldsFrom;
    var idEnd := Strpbrk(buf, " \t\n", id, s);
    saved2 := buf[idEnd];
    if saved2 != '\0' {
      buf[idEnd] := '\0';
    }
    ghost var r := buf[..];
    assert r == b[hostEnd := '\0'][idEnd := '\0'];
    HoldsUser(b, r, s, user, hostEnd, idEnd, first);
    var at := Strrchr(buf, '@', user, s[..hostEnd]);
    saved3 := buf[at];
    buf[at] := '\0';
    cuts := Some(Cuts(user, at, hostEnd, id, idEnd));
    CutsAre(s, cuts.value);
  }

  class SavedLists {
    var queries: seq<Query>
    var scratchlist: seq<string>

    constructor (hostlist: seq<Query>)
      ensures queries == hostlist && scratchlist == []
    {
      queries, scratchlist := hostlist, [];
    }

    ghost function Value(): State
      reads this
    {
      State(queries, scratchlist)
    }

    /** The first host that the names belong to. */
    method FindOwner(user: string, host: string) returns (k: nat)
      ensures k == Owner(queries, user, host)
    {
      k := 0;
      while k < |queries| && !Matches(queries[k], user, host)
        invariant k <= |queries| && forall j | 0 <= j < k :: !Matches(queries[j], user, host)
      {
        k := k + 1;
      }
    }

    /** One line: its id to the host it belongs to, or else the line as it was to the scratch list. */
    method TakeLine(buf: array<char>, ghost s: string)
      requires Holds(buf[..], s)
      modifies this, buf
      ensures Value() == LoadLine(old(Value()), s)
    {
      hide CutsOf, Owner, CString, Holds, CutUp;
      ghost var b := buf[..];
      WholeString(b, s);
      var cuts, saved1, saved2, saved3 := CutLine(buf, s);
      if cuts.None? {
        return;
      }
      var c := cuts.value;
      HoldsLength(b, s);
      CutStrings(b, s, c);
      var k := FindOwner(CString(buf[..], c.user), CString(buf[..], c.at + 1));
      if k < |queries| {
        queries := queries[k := WithId(queries[k], CString(buf[..], c.id))];
      } else {
        Restore(buf, c, saved1, saved2, saved3, b);
        scratchlist := scratchlist + [CString(buf[..], 0)];
      }
    }

    method Restore(buf: array<char>, c: Cuts, saved1: char, saved2: char, saved3: char, ghost b: seq<char>)
      requires c.user <= c.at < c.hostEnd < c.id <= c.idEnd < |b|
      requires buf[..] == CutUp(b, c) && saved1 == b[c.hostEnd] && saved2 == b[c.idEnd] && saved3 == b[c.at]
      modifies buf
      ensures buf[..] == b
    {
      buf[c.hostEnd] := saved1;
      buf[c.at] := saved3;
      buf[c.idEnd] := saved2;
    }

    /** fgets: the next line, or as much of it as the buffer takes. */
    method Fgets(buf: array<char>, file: string) returns (rest: string)
      requires buf.Length == LINE_LIMIT + 1 && file != "" && '\0' !in file
      modifies buf
      ensures Holds(buf[..], file[..ChunkEnd(file)]) && rest == file[ChunkEnd(file)..]
    {
      var k := ChunkEnd(file);
      forall i | 0 <= i < k {
        buf[i] := file[i];
      }
      buf[k] := '\0';
      rest := file[k..];
    }

    method InitializeSavedLists(idfile: Option<string>)
      requires idfile.Some? ==> '\0' !in idfile.value
      modifies this
      ensures Value() == Load(old(queries), old(scratchlist), idfile)
    {
      hide LoadLine, Chunks, LoadLines;
      queries := Cleared(queries);
      ghost var start := Value();
      NoLines(start);
      if idfile.None? {
        return;
      }
      var buf := new char[LINE_LIMIT + 1](_ => '\0');
      var rest := idfile.value;
      ghost var lines: seq<string> := [];
      assert [] + Chunks(rest) == Chunks(rest);
      while rest != ""
        invariant '\0' !in rest && lines + Chunks(rest) == Chunks(idfile.value)
        invariant Value() == LoadLines(start, lines)
        decreases |rest|
      {
        ghost var l, all := rest[..ChunkEnd(rest)], rest;
        ChunksStep(all);
        rest := Fgets(buf, rest);
        TakeLine(buf, l);
        OneMoreLine(start, lines, l, Chunks(rest));
        lines := lines + [l];
      }
      NoChunks();
      assert lines + [] == lines;
    }

    /** What one host adds to the file. */
    method WriteQuery(q: Query, out0: string, ghost lines: seq<string>) returns (out: string)
      requires out0 == Flattened(lines)
      ensures out == Flattened(lines + QueryLines(q.user, q.host, q.saved))
    {
      hide Flattened, Printed;
      out := out0;
      assert lines + [] == lines;
      for i := 0 to |q.saved|
        invariant out == Flattened(lines + QueryLines(q.user, q.host, q.saved[..i]))
      {
        var r := q.saved[i];
        ghost var before := QueryLines(q.user, q.host, q.saved[..i]);
        assert q.saved[..i + 1][..i] == q.saved[..i];
        if Written(r) {
          OneMoreFlattened(lines + before, Printed(q.user, q.host, r.id));
          out := out + Printed(q.user, q.host, r.id);
          assert lines + before + [Printed(q.user, q.host, r.id)] == lines + (before + [Printed(q.user, q.host, r.id)]);
        } else {
          assert before + [] == before;
        }
      }
      assert q.saved[..|q.saved|] == q.saved;
    }

    /** How many ids there are to write. */
    method CountSeenDeleted() returns (idcount: nat)
      ensures idcount == |Lines(queries)|
    {
      idcount := 0;
      for k := 0 to |queries|
        invariant idcount == |Lines(queries[..k])|
      {
        var q := queries[k];
        assert queries[..k + 1][..k] == queries[..k];
        for i := 0 to |q.saved|
          invariant idcount == |Lines(queries[..k])| + |QueryLines(q.user, q.host, q.saved[..i])|
        {
          assert q.saved[..i + 1][..i] == q.saved[..i];
          if Written(q.saved[i]) {
            idcount := idcount + 1;
          }
        }
        assert q.saved[..|q.saved|] == q.saved;
      }
      assert queries[..|queries|] == queries;
    }

    /** The new contents of the file; None when it is removed. */
    method WriteSavedLists() returns (idfile: Option<string>)
      ensures idfile == Write(Value())
    {
      hide Flattened, QueryLines;
      var idcount := CountSeenDeleted();
      if idcount == 0 && scratchlist == [] {
        return None;
      }
      NoneFlattened();
      var out := "";
      for k := 0 to |queries|
        invariant out == Flattened(Lines(queries[..k]))
      {
        out := WriteQuery(queries[k], out, Lines(queries[..k]));
        assert queries[..k + 1][..k] == queries[..k];
      }
      assert queries[..|queries|] == queries;
      ghost var lines := Lines(queries);
      assert lines + [] == lines;
      for i := 0 to |scratchlist|
        invariant out == Flattened(lines + scratchlist[..i])
      {
        OneMoreFlattened(lines + scratchlist[..i], scratchlist[i]);
        assert lines + scratchlist[..i] + [scratchlist[i]] == lines + scratchlist[..i + 1];
        out := out + scratchlist[i];
      }
      assert scratchlist[..|scratchlist|] == scratchlist;
      idfile := Some(out);
    }
  }

  lemma ChunksStep(file: string)
    requires file != ""
    ensures Chunks(file) == [file[..ChunkEnd(file)]] + Chunks(file[ChunkEnd(file)..])
  {
  }

  lemma NoChunks()
    ensures Chunks("") == []
  {
  }
}
