/** Recursive config includes: depth-first expansion over a possibly cyclic include graph. */
module ConfigIncludes {

  type Path = string

  /** A line as `str::lines` yields it; an include's target is already joined to its directory. */
  datatype Line = Text(text: string) | Include(target: Path)

  /** The readable files, by canonical path, and how paths become canonical. */
  datatype Files = Files(content: map<Path, seq<Line>>, canonical: Path -> Path)

  /** A line of the expansion: one of a file's own, or the newline that makes up for an empty one. */
  datatype OutLine = From(file: Path, index: nat, text: string) | Blank

  datatype Outcome = Expanded(out: seq<OutLine>, visited: set<Path>) | Unreadable(path: Path)

  function Remaining(fs: Files, visited: set<Path>): nat {
    |fs.content.Keys - visited|
  }

  lemma VisitMore(fs: Files, a: set<Path>, b: set<Path>)
    requires a <= b
    ensures Remaining(fs, b) <= Remaining(fs, a)
    ensures (exists f :: f in fs.content && f in b && f !in a) ==> Remaining(fs, b) < Remaining(fs, a)
  {
    var ra, rb := fs.content.Keys - a, fs.content.Keys - b;
    SubsetSize(rb, ra);
    if f :| f in fs.content && f in b && f !in a {
      SubsetSize(rb, ra - {f});
    }
  }

  lemma {:induction false} SubsetSize<T>(a: set<T>, b: set<T>)
    requires a <= b
    ensures |a| <= |b|
  {
    if x :| x in a {
      SubsetSize(a - {x}, b - {x});
    }
  }

  /** A file's expansion, given the files visited before. */
  function ExpandFile(fs: Files, file: Path, visited: set<Path>): (r: Outcome)
    ensures r.Expanded? ==> visited <= r.visited && file in r.visited
    decreases Remaining(fs, visited), 0
  {
    if file in visited then Expanded([], visited)
    else if file !in fs.content then Unreadable(file)
    else
      VisitMore(fs, visited, visited + {file});
      ExpandLines(fs, file, |fs.content[file]|, visited + {file})
  }

  /** What the first `n` lines of a file expand to. */
  function ExpandLines(fs: Files, file: Path, n: nat, visited: set<Path>): (r: Outcome)
    requires file in fs.content && n <= |fs.content[file]|
    ensures r.Expanded? ==> visited <= r.visited
    decreases Remaining(fs, visited), n + 1
  {
    if n == 0 then Expanded([], visited)
    else
      var before := ExpandLines(fs, file, n - 1, visited);
      if before.Unreadable? then before
      else
        match fs.content[file][n - 1]
        case Text(text) => before.(out := before.out + [From(file, n - 1, text)])
        case Include(target) =>
          VisitMore(fs, visited, before.visited);
          IncludeAfter(before.out, ExpandFile(fs, fs.canonical(target), before.visited))
  }

  /** An expansion that is still empty gets a newline of its own. */
  function IncludeAfter(out: seq<OutLine>, included: Outcome): (r: Outcome)
    ensures r.Expanded? <==> included.Expanded?
    ensures r.Expanded? ==> r.visited == included.visited
  {
    if included.Unreadable? then included
    else included.(out := if out + included.out == [] then [Blank] else out + included.out)
  }

  // ---- the loader ----

  function LineText(line: OutLine): string {
    if line.From? then line.text + "\n" else "\n"
  }

  function Render(out: seq<OutLine>): string {
    if out == [] then "" else Render(out[..|out| - 1]) + LineText(out[|out| - 1])
  }

  lemma {:induction false} RenderAppend(a: seq<OutLine>, b: seq<OutLine>)
    ensures Render(a + b) == Render(a) + Render(b)
  {
    hide LineText;
    if b == [] {
      assert a + b == a;
    } else {
      assert (a + b)[..|a + b| - 1] == a + b[..|b| - 1];
      RenderAppend(a, b[..|b| - 1]);
    }
  }

  lemma RenderOne(line: OutLine)
    ensures Render([line]) == LineText(line)
  {
    assert [line][..0] == [];
  }

  predicate EndsWithNewline(s: string) {
    s != "" && s[|s| - 1] == '\n'
  }

  lemma RenderedEnds(out: seq<OutLine>)
    ensures EndsWithNewline(Render(out)) <==> out != []
  {
  }

  datatype LoadResult = Loaded(text: string) | IoError(path: Path)

  /** Shares the set of visited files between the recursive calls. */
  class Loader {
    const fs: Files
    var visited: set<Path>

    constructor (fs: Files)
      ensures this.fs == fs && visited == {}
    {
      this.fs := fs;
      visited := {};
    }

    method LoadWithIncludes(path: Path) returns (r: LoadResult)
      modifies this
      ensures var e := ExpandFile(fs, fs.canonical(path), old(visited));
              if e.Expanded? then r == Loaded(Render(e.out)) && visited == e.visited else r == IoError(e.path)
      decreases Remaining(fs, visited), 0
    {
      var file := fs.canonical(path);
      if file in visited {
        return Loaded("");
      }
      VisitMore(fs, visited, visited + {file});
      visited := visited + {file};
      if file !in fs.content {
        return IoError(file);
      }
      hide ExpandLines, Render;
      r := LoadLines(file);
    }

    /** The loop over one file's lines. */
    method LoadLines(file: Path) returns (r: LoadResult)
      requires file in fs.content
      modifies this
      ensures var e := ExpandLines(fs, file, |fs.content[file]|, old(visited));
              if e.Expanded? then r == Loaded(Render(e.out)) && visited == e.visited else r == IoError(e.path)
      decreases Remaining(fs, visited), 1
    {
      hide ExpandLines, ExpandFile, Render, EndsWithNewline, Remaining;
      ghost var entered := visited;
      var lines, expanded := fs.content[file], "";
      NoLines(fs, file, entered);
      for i := 0 to |lines|
        invariant entered <= visited && ExpandLines(fs, file, i, entered).Expanded?
        invariant visited == ExpandLines(fs, file, i, entered).visited
        invariant expanded == Render(ExpandLines(fs, file, i, entered).out)
      {
        if lines[i].Include? {
          VisitMore(fs, entered, visited);
          IncludeStep(fs, file, i, entered);
          var included := LoadWithIncludes(lines[i].target);
          if included.IoError? {
            UnreadableStays(fs, file, i + 1, |lines|, entered);
            return included;
          }
          expanded := expanded + included.text;
          if !EndsWithNewline(expanded) {
            expanded := expanded + "\n";
          }
        } else {
          TextStep(fs, file, i, entered);
          expanded := expanded + lines[i].text;
          expanded := expanded + "\n";
        }
      }
      return Loaded(expanded);
    }
  }

  lemma NoLines(fs: Files, file: Path, visited: set<Path>)
    requires file in fs.content
    ensures ExpandLines(fs, file, 0, visited) == Expanded([], visited) && Render([]) == ""
  {
  }

  lemma TextStep(fs: Files, file: Path, i: nat, visited: set<Path>)
    requires file in fs.content && i < |fs.content[file]| && fs.content[file][i].Text?
    requires ExpandLines(fs, file, i, visited).Expanded?
    ensures var before, after := ExpandLines(fs, file, i, visited), ExpandLines(fs, file, i + 1, visited);
            && after.Expanded? && after.visited == before.visited
            && Render(after.out) == Render(before.out) + fs.content[file][i].text + "\n"
  {
    var out, line := ExpandLines(fs, file, i, visited).out, From(file, i, fs.content[file][i].text);
    RenderAppend(out, [line]);
    RenderOne(line);
  }

  lemma IncludeStep(fs: Files, file: Path, i: nat, visited: set<Path>)
    requires file in fs.content && i < |fs.content[file]| && fs.content[file][i].Include?
    requires ExpandLines(fs, file, i, visited).Expanded?
    ensures var before, after := ExpandLines(fs, file, i, visited), ExpandLines(fs, file, i + 1, visited);
            var inner := ExpandFile(fs, fs.canonical(fs.content[file][i].target), before.visited);
            if inner.Unreadable? then after == inner
            else
              && after.Expanded? && after.visited == inner.visited
              && var text := Render(before.out) + Render(inner.out);
                 Render(after.out) == if EndsWithNewline(text) then text else text + "\n"
  {
    var before := ExpandLines(fs, file, i, visited);
    VisitMore(fs, visited, before.visited);
    var inner := ExpandFile(fs, fs.canonical(fs.content[file][i].target), before.visited);
    if inner.Expanded? {
      RenderAppend(before.out, inner.out);
      RenderedEnds(before.out + inner.out);
      RenderOne(Blank);
    }
  }

  lemma {:induction false} UnreadableStays(fs: Files, file: Path, i: nat, n: nat, visited: set<Path>)
    requires file in fs.content && i <= n <= |fs.content[file]|
    requires ExpandLines(fs, file, i, visited).Unreadable?
    ensures ExpandLines(fs, file, n, visited) == ExpandLines(fs, file, i, visited)
  {
    if i == n {
    } else {
      UnreadableStays(fs, file, i, n - 1, visited);
    }
  }

  // ---- which files are visited ----

  ghost predicate Edge(fs: Files, a: Path, b: Path) {
    a in fs.content &&
    exists i :: 0 <= i < |fs.content[a]| && fs.content[a][i].Include? && fs.canonical(fs.content[a][i].target) == b
  }

  ghost predicate Steps(fs: Files, a: Path, b: Path, n: nat)
    decreases n
  {
    if n == 0 then a == b else exists mid :: Edge(fs, a, mid) && Steps(fs, mid, b, n - 1)
  }

  /** A chain of includes leads from `a` to `b`. */
  ghost predicate Reachable(fs: Files, a: Path, b: Path) {
    exists n: nat :: Steps(fs, a, b, n)
  }

  lemma ReachSelf(fs: Files, a: Path)
    ensures Reachable(fs, a, a)
  {
    assert Steps(fs, a, a, 0);
  }

  lemma ReachStep(fs: Files, a: Path, mid: Path, b: Path)
    requires Edge(fs, a, mid) && Reachable(fs, mid, b)
    ensures Reachable(fs, a, b)
  {
    var n: nat :| Steps(fs, mid, b, n);
    assert Steps(fs, a, b, n + 1);
  }

  /** All of `files` are readable and include nothing outside `visited`. */
  ghost predicate Closed(fs: Files, files: set<Path>, visited: set<Path>) {
    forall a :: a in files ==> a in fs.content && forall b :: Edge(fs, a, b) ==> b in visited
  }

  lemma {:induction false} VisitsClosed(fs: Files, file: Path, visited: set<Path>)
    requires ExpandFile(fs, file, visited).Expanded?
    ensures Closed(fs, ExpandFile(fs, file, visited).visited - visited, ExpandFile(fs, file, visited).visited)
    decreases Remaining(fs, visited), 0
  {
    if file in visited {
    } else {
      var entered, n := visited + {file}, |fs.content[file]|;
      VisitMore(fs, visited, entered);
      LinesClosed(fs, file, n, entered);
      var after := ExpandLines(fs, file, n, entered).visited;
      forall a | a in after - visited ensures a in fs.content && forall b :: Edge(fs, a, b) ==> b in after {
        assert a == file || a in after - entered;
      }
    }
  }

  lemma {:induction false} LinesClosed(fs: Files, file: Path, n: nat, visited: set<Path>)
    requires file in fs.content && n <= |fs.content[file]| && ExpandLines(fs, file, n, visited).Expanded?
    ensures var after := ExpandLines(fs, file, n, visited).visited;
            && Closed(fs, after - visited, after)
            && forall i :: 0 <= i < n && fs.content[file][i].Include? ==>
                 fs.canonical(fs.content[file][i].target) in after
    decreases Remaining(fs, visited), n + 1
  {
    if n == 0 {
    } else {
      LinesClosed(fs, file, n - 1, visited);
      var before := ExpandLines(fs, file, n - 1, visited).visited;
      if fs.content[file][n - 1].Include? {
        VisitMore(fs, visited, before);
        VisitsClosed(fs, fs.canonical(fs.content[file][n - 1].target), before);
      }
    }
  }

  /** Every file newly visited, and a file that could not be read, is reachable. */
  predicate ReachedBy(fs: Files, visited: set<Path>, r: Outcome, p: Path) {
    if r.Expanded? then p in r.visited && p !in visited else p == r.path
  }

  lemma {:induction false} VisitsReachable(fs: Files, file: Path, visited: set<Path>, p: Path)
    requires ReachedBy(fs, visited, ExpandFile(fs, file, visited), p)
    ensures Reachable(fs, file, p)
    ensures ExpandFile(fs, file, visited).Unreadable? ==> p !in fs.content
    decreases Remaining(fs, visited), 0
  {
    ReachSelf(fs, file);
    if file !in visited && file in fs.content && p != file {
      var entered := visited + {file};
      VisitMore(fs, visited, entered);
      LinesReachable(fs, file, |fs.content[file]|, entered, p);
    } else if file in fs.content && file !in visited {
      var entered := visited + {file};
      VisitMore(fs, visited, entered);
      if ExpandFile(fs, file, visited).Unreadable? {
        LinesReachable(fs, file, |fs.content[file]|, entered, p);
      }
    }
  }

  lemma {:induction false} LinesReachable(fs: Files, file: Path, n: nat, visited: set<Path>, p: Path)
    requires file in fs.content && n <= |fs.content[file]|
    requires ReachedBy(fs, visited, ExpandLines(fs, file, n, visited), p)
    ensures Reachable(fs, file, p)
    ensures ExpandLines(fs, file, n, visited).Unreadable? ==> p !in fs.content
    decreases Remaining(fs, visited), n + 1
  {
    if n == 0 {
    } else {
      var before := ExpandLines(fs, file, n - 1, visited);
      if before.Unreadable? || (ExpandLines(fs, file, n, visited).Expanded? && p in before.visited) {
        LinesReachable(fs, file, n - 1, visited, p);
      } else {
        var target := fs.canonical(fs.content[file][n - 1].target);
        VisitMore(fs, visited, before.visited);
        VisitsReachable(fs, target, before.visited, p);
        assert Edge(fs, file, target);
        ReachStep(fs, file, target, p);
      }
    }
  }

  lemma {:induction false} ClosedHoldsReachable(fs: Files, visited: set<Path>, a: Path, b: Path, n: nat)
    requires Closed(fs, visited, visited) && a in visited && Steps(fs, a, b, n)
    ensures b in visited
    decreases n
  {
    if n == 0 {
    } else {
      var mid :| Edge(fs, a, mid) && Steps(fs, mid, b, n - 1);
      ClosedHoldsReachable(fs, visited, mid, b, n - 1);
    }
  }

  /** For every include graph, cyclic or not: loading succeeds exactly when all files reachable
      from the root can be read, it has then visited exactly those, and when it fails it names a
      reachable file that cannot be read. */
  lemma LoadsReachableExactly(fs: Files, root: Path)
    ensures var r := ExpandFile(fs, root, {});
            && (r.Expanded? <==> forall p :: Reachable(fs, root, p) ==> p in fs.content)
            && (r.Expanded? ==> forall p :: p in r.visited <==> Reachable(fs, root, p))
            && (r.Unreadable? ==> Reachable(fs, root, r.path) && r.path !in fs.content)
  {
    hide ExpandFile, Closed, Reachable;
    var r := ExpandFile(fs, root, {});
    if r.Expanded? {
      assert Closed(fs, r.visited, r.visited) by {
        VisitsClosed(fs, root, {});
        assert r.visited - {} == r.visited;
      }
      forall p ensures p in r.visited <==> Reachable(fs, root, p) {
        if p in r.visited {
          VisitsReachable(fs, root, {}, p);
        }
        if Reachable(fs, root, p) {
          StepsOf(fs, root, p, r.visited);
        }
      }
      ClosedReadable(fs, r.visited);
    } else {
      VisitsReachable(fs, root, {}, r.path);
    }
  }

  lemma StepsOf(fs: Files, a: Path, b: Path, visited: set<Path>)
    requires Reachable(fs, a, b) && Closed(fs, visited, visited) && a in visited
    ensures b in visited
  {
    var n: nat :| Steps(fs, a, b, n);
    ClosedHoldsReachable(fs, visited, a, b, n);
  }

  lemma ClosedReadable(fs: Files, visited: set<Path>)
    requires Closed(fs, visited, visited)
    ensures forall p :: p in visited ==> p in fs.content
  {
  }

  // ---- which lines come out ----

  /** The lines that came from one file, in order. */
  function OfFile(out: seq<OutLine>, file: Path): seq<OutLine> {
    if out == [] then []
    else
      var last := out[|out| - 1];
      OfFile(out[..|out| - 1], file) + if last.From? && last.file == file then [last] else []
  }

  /** The ordinary lines among the first `n` of a file. */
  function OwnLines(fs: Files, file: Path, n: nat): seq<OutLine>
    requires file in fs.content && n <= |fs.content[file]|
  {
    if n == 0 then []
    else
      var line := fs.content[file][n - 1];
      OwnLines(fs, file, n - 1) + if line.Text? then [From(file, n - 1, line.text)] else []
  }

  function AllOwnLines(fs: Files, file: Path): seq<OutLine> {
    if file in fs.content then OwnLines(fs, file, |fs.content[file]|) else []
  }

  lemma {:induction false} OfFileAppend(a: seq<OutLine>, b: seq<OutLine>, file: Path)
    ensures OfFile(a + b, file) == OfFile(a, file) + OfFile(b, file)
  {
    if b == [] {
      assert a + b == a;
    } else {
      assert (a + b)[..|a + b| - 1] == a + b[..|b| - 1];
      OfFileAppend(a, b[..|b| - 1], file);
    }
  }

  lemma OfFileOne(line: OutLine, file: Path)
    ensures OfFile([line], file) == if line.From? && line.file == file then [line] else []
  {
    assert [line][..0] == [];
  }

  /** The ordinary lines of each newly visited file come out once each and in order, and nothing
      of any other file does. */
  lemma {:induction false} LinesOnceInOrder(fs: Files, file: Path, visited: set<Path>, f: Path)
    requires ExpandFile(fs, file, visited).Expanded?
    ensures var r := ExpandFile(fs, file, visited);
            OfFile(r.out, f) == if f in r.visited && f !in visited then AllOwnLines(fs, f) else []
    decreases Remaining(fs, visited), 0
  {
    if file in visited {
    } else {
      VisitMore(fs, visited, visited + {file});
      OwnLinesOnceInOrder(fs, file, |fs.content[file]|, visited + {file}, f);
    }
  }

  lemma {:induction false} OwnLinesOnceInOrder(fs: Files, file: Path, n: nat, visited: set<Path>, f: Path)
    requires file in fs.content && n <= |fs.content[file]| && file in visited
    requires ExpandLines(fs, file, n, visited).Expanded?
    ensures var r := ExpandLines(fs, file, n, visited);
            OfFile(r.out, f) == if f == file then OwnLines(fs, file, n)
                                else if f in r.visited && f !in visited then AllOwnLines(fs, f) else []
    decreases Remaining(fs, visited), n + 1
  {
    if n == 0 {
    } else {
      OwnLinesOnceInOrder(fs, file, n - 1, visited, f);
      var before := ExpandLines(fs, file, n - 1, visited);
      match fs.content[file][n - 1] {
        case Text(text) =>
          OfFileAppend(before.out, [From(file, n - 1, text)], f);
          OfFileOne(From(file, n - 1, text), f);
        case Include(target) =>
          var inner := ExpandFile(fs, fs.canonical(target), before.visited);
          VisitMore(fs, visited, before.visited);
          LinesOnceInOrder(fs, fs.canonical(target), before.visited, f);
          OfFileAppend(before.out, inner.out, f);
          OfFileOne(Blank, f);
      }
    }
  }

  /** From the root: each reachable file's ordinary lines, once and in order. */
  lemma ReachableLinesOnce(fs: Files, root: Path, f: Path)
    requires ExpandFile(fs, root, {}).Expanded?
    ensures Reachable(fs, root, f) ==> OfFile(ExpandFile(fs, root, {}).out, f) == AllOwnLines(fs, f)
    ensures !Reachable(fs, root, f) ==> OfFile(ExpandFile(fs, root, {}).out, f) == []
  {
    hide ExpandFile, Reachable;
    LinesOnceInOrder(fs, root, {}, f);
    LoadsReachableExactly(fs, root);
  }

  // ---- line ends ----

  /** After any line, what a file has expanded to so far is not empty: it ends in a newline, and the
      next line starts afresh. */
  lemma EveryLineEnds(fs: Files, file: Path, n: nat, visited: set<Path>)
    requires file in fs.content && 0 < n <= |fs.content[file]| && ExpandLines(fs, file, n, visited).Expanded?
    ensures EndsWithNewline(Render(ExpandLines(fs, file, n, visited).out))
  {
    RenderedEnds(ExpandLines(fs, file, n, visited).out);
  }

  function Blanks(out: seq<OutLine>): nat {
    if out == [] then 0 else Blanks(out[..|out| - 1]) + if out[|out| - 1].Blank? then 1 else 0
  }

  lemma {:induction false} BlanksAppend(a: seq<OutLine>, b: seq<OutLine>)
    ensures Blanks(a + b) == Blanks(a) + Blanks(b)
  {
    if b == [] {
      assert a + b == a;
    } else {
      assert (a + b)[..|a + b| - 1] == a + b[..|b| - 1];
      BlanksAppend(a, b[..|b| - 1]);
    }
  }

  predicate StartsWithInclude(fs: Files, file: Path) {
    file in fs.content && fs.content[file] != [] && fs.content[file][0].Include?
  }

  /** The files that begin with an include. */
  function Starters(fs: Files, files: set<Path>): set<Path> {
    set f | f in files && StartsWithInclude(fs, f)
  }

  /** A newline is made up for at most once a file, and only in files whose first line is an include. */
  lemma {:induction false} BlanksBounded(fs: Files, file: Path, visited: set<Path>)
    requires ExpandFile(fs, file, visited).Expanded?
    ensures var r := ExpandFile(fs, file, visited);
            Blanks(r.out) <= |Starters(fs, r.visited - visited)|
    decreases Remaining(fs, visited), 0
  {
    if file in visited {
    } else {
      var entered := visited + {file};
      VisitMore(fs, visited, entered);
      BlankLinesBounded(fs, file, |fs.content[file]|, entered);
      var after := ExpandLines(fs, file, |fs.content[file]|, entered).visited;
      var inner, all := Starters(fs, after - entered), Starters(fs, after - visited);
      assert all == if StartsWithInclude(fs, file) then inner + {file} else inner;
    }
  }

  lemma {:induction false} BlankLinesBounded(fs: Files, file: Path, n: nat, visited: set<Path>)
    requires file in fs.content && n <= |fs.content[file]| && ExpandLines(fs, file, n, visited).Expanded?
    ensures var r := ExpandLines(fs, file, n, visited);
            Blanks(r.out) <= |Starters(fs, r.visited - visited)| + if StartsWithInclude(fs, file) then 1 else 0
    ensures n == 0 ==> ExpandLines(fs, file, n, visited).out == []
    decreases Remaining(fs, visited), n + 1
  {
    if n == 0 {
    } else {
      BlankLinesBounded(fs, file, n - 1, visited);
      var before := ExpandLines(fs, file, n - 1, visited);
      match fs.content[file][n - 1] {
        case Text(text) => BlanksAppend(before.out, [From(file, n - 1, text)]);
        case Include(target) =>
          VisitMore(fs, visited, before.visited);
          var inner := ExpandFile(fs, fs.canonical(target), before.visited);
          BlanksBounded(fs, fs.canonical(target), before.visited);
          BlanksAppend(before.out, inner.out);
          StartersSplit(fs, visited, before.visited, inner.visited);
          if n > 1 {
            EveryLineEnds(fs, file, n - 1, visited);
            RenderedEnds(before.out);
          }
      }
    }
  }

  lemma StartersSplit(fs: Files, a: set<Path>, b: set<Path>, c: set<Path>)
    requires a <= b <= c
    ensures |Starters(fs, c - a)| == |Starters(fs, b - a)| + |Starters(fs, c - b)|
  {
    assert Starters(fs, c - a) == Starters(fs, b - a) + Starters(fs, c - b);
    assert Starters(fs, b - a) !! Starters(fs, c - b);
  }
}
