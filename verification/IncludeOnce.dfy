/** The visited set against plain textual inclusion: the expansion is what inclusion would give,
    every line but its first copy left out. */
module IncludeOnce {
  import opened ConfigIncludes

  // ---- plain inclusion ----

  /** Textual inclusion that only refuses to enter a file from within itself. */
  function Inline(fs: Files, file: Path, stack: set<Path>): seq<OutLine>
    decreases Remaining(fs, stack), 0
  {
    if file in stack || file !in fs.content then []
    else
      VisitMore(fs, stack, stack + {file});
      InlineLines(fs, file, |fs.content[file]|, stack + {file})
  }

  function InlineLines(fs: Files, file: Path, n: nat, stack: set<Path>): seq<OutLine>
    requires file in fs.content && n <= |fs.content[file]|
    decreases Remaining(fs, stack), n + 1
  {
    if n == 0 then []
    else InlineLines(fs, file, n - 1, stack) + InlineLine(fs, file, n - 1, stack)
  }

  function InlineLine(fs: Files, file: Path, i: nat, stack: set<Path>): seq<OutLine>
    requires file in fs.content && i < |fs.content[file]|
    decreases Remaining(fs, stack), 1
  {
    match fs.content[file][i]
    case Text(text) => [From(file, i, text)]
    case Include(target) => Inline(fs, fs.canonical(target), stack)
  }

  /** Every element not `seen`, at its first occurrence only. */
  ghost function FirstCopies(s: seq<OutLine>, seen: iset<OutLine>): seq<OutLine> {
    if s == [] then []
    else if s[0] in seen then FirstCopies(s[1..], seen)
    else [s[0]] + FirstCopies(s[1..], seen + iset{s[0]})
  }

  function NonBlank(out: seq<OutLine>): seq<OutLine> {
    if out == [] then []
    else NonBlank(out[..|out| - 1]) + if out[|out| - 1].Blank? then [] else [out[|out| - 1]]
  }

  // ---- first copies ----

  ghost function Elements(s: seq<OutLine>): iset<OutLine> {
    iset x | x in s
  }

  lemma {:induction false} FirstCopiesAppend(a: seq<OutLine>, b: seq<OutLine>, seen: iset<OutLine>)
    ensures FirstCopies(a + b, seen) == FirstCopies(a, seen) + FirstCopies(b, seen + Elements(a))
  {
    if a == [] {
      assert a + b == b;
      assert seen + Elements(a) == seen;
    } else {
      var now := if a[0] in seen then seen else seen + iset{a[0]};
      assert (a + b)[1..] == a[1..] + b;
      FirstCopiesAppend(a[1..], b, now);
      assert now + Elements(a[1..]) == seen + Elements(a) by {
        assert a == [a[0]] + a[1..];
      }
    }
  }

  /** Only what occurs in `s` matters of what has been seen. */
  lemma {:induction false} FirstCopiesAgree(s: seq<OutLine>, a: iset<OutLine>, b: iset<OutLine>)
    requires forall x :: x in s ==> (x in a <==> x in b)
    ensures FirstCopies(s, a) == FirstCopies(s, b)
  {
    if s == [] {
    } else {
      assert forall x :: x in s[1..] ==> x in s;
      if s[0] in a {
        FirstCopiesAgree(s[1..], a, b);
      } else {
        FirstCopiesAgree(s[1..], a + iset{s[0]}, b + iset{s[0]});
      }
    }
  }

  lemma {:induction false} NothingNew(s: seq<OutLine>, seen: iset<OutLine>)
    requires forall x :: x in s ==> x in seen
    ensures FirstCopies(s, seen) == []
  {
    if s == [] {
    } else {
      NothingNew(s[1..], seen);
    }
  }

  lemma {:induction false} FirstCopiesElements(s: seq<OutLine>, seen: iset<OutLine>, x: OutLine)
    ensures x in FirstCopies(s, seen) <==> x in s && x !in seen
  {
    if s == [] {
    } else {
      assert x in s <==> x == s[0] || x in s[1..];
      FirstCopiesElements(s[1..], if s[0] in seen then seen else seen + iset{s[0]}, x);
    }
  }

  lemma {:induction false} NonBlankAppend(a: seq<OutLine>, b: seq<OutLine>)
    ensures NonBlank(a + b) == NonBlank(a) + NonBlank(b)
  {
    if b == [] {
      assert a + b == a;
    } else {
      assert (a + b)[..|a + b| - 1] == a + b[..|b| - 1];
      NonBlankAppend(a, b[..|b| - 1]);
    }
  }

  lemma NonBlankOne(line: OutLine)
    ensures NonBlank([line]) == if line.Blank? then [] else [line]
  {
    assert [line][..0] == [];
  }

  // ---- which lines belong to which files ----

  predicate Own(fs: Files, x: OutLine) {
    && x.From? && x.file in fs.content && x.index < |fs.content[x.file]|
    && fs.content[x.file][x.index] == Text(x.text)
  }

  /** The ordinary lines of a set of files. */
  ghost function LinesOf(fs: Files, files: set<Path>): iset<OutLine> {
    iset x: OutLine | Own(fs, x) && x.file in files
  }

  lemma {:induction false} OwnLinesMembers(fs: Files, file: Path, n: nat, x: OutLine)
    requires file in fs.content && n <= |fs.content[file]|
    ensures x in OwnLines(fs, file, n) <==> Own(fs, x) && x.file == file && x.index < n
  {
    if n == 0 {
    } else {
      OwnLinesMembers(fs, file, n - 1, x);
    }
  }

  lemma {:induction false} OfFileMembers(out: seq<OutLine>, file: Path, x: OutLine)
    ensures x in OfFile(out, file) <==> x in out && x.From? && x.file == file
  {
    if out == [] {
    } else {
      assert out == out[..|out| - 1] + [out[|out| - 1]];
      OfFileMembers(out[..|out| - 1], file, x);
    }
  }

  lemma {:induction false} NonBlankMembers(out: seq<OutLine>, x: OutLine)
    ensures x in NonBlank(out) <==> x in out && x.From?
  {
    if out == [] {
    } else {
      assert out == out[..|out| - 1] + [out[|out| - 1]];
      NonBlankMembers(out[..|out| - 1], x);
    }
  }

  /** What a file's first lines expanded to, of files outside the stack. */
  lemma ExpandedMembers(fs: Files, file: Path, n: nat, visited: set<Path>, x: OutLine)
    requires file in fs.content && n <= |fs.content[file]| && file in visited
    requires ExpandLines(fs, file, n, visited).Expanded?
    requires x.From? && x.file != file
    ensures var r := ExpandLines(fs, file, n, visited);
            x in NonBlank(r.out) <==> x in LinesOf(fs, r.visited - visited)
  {
    hide ExpandLines, OwnLines;
    var r := ExpandLines(fs, file, n, visited);
    NonBlankMembers(r.out, x);
    OfFileMembers(r.out, x.file, x);
    OwnLinesOnceInOrder(fs, file, n, visited, x.file);
    if x.file in fs.content {
      OwnLinesMembers(fs, x.file, |fs.content[x.file]|, x);
    }
  }

  /** Nothing is inlined from a file on the stack, and only the lines before are from the file itself. */
  lemma {:induction false} InlineAvoids(fs: Files, file: Path, stack: set<Path>, x: OutLine)
    requires x in Inline(fs, file, stack)
    ensures x.From? && x.file !in stack
    decreases Remaining(fs, stack), 0
  {
    VisitMore(fs, stack, stack + {file});
    InlineLinesAvoid(fs, file, |fs.content[file]|, stack + {file}, x);
  }

  lemma {:induction false} InlineLinesAvoid(fs: Files, file: Path, n: nat, stack: set<Path>, x: OutLine)
    requires file in fs.content && n <= |fs.content[file]| && file in stack
    requires x in InlineLines(fs, file, n, stack)
    ensures x.From? && (x.file in stack ==> x.file == file && x.index < n)
    decreases Remaining(fs, stack), n + 1
  {
    if x in InlineLines(fs, file, n - 1, stack) {
      InlineLinesAvoid(fs, file, n - 1, stack, x);
    } else if fs.content[file][n - 1].Include? {
      InlineAvoids(fs, fs.canonical(fs.content[file][n - 1].target), stack, x);
    }
  }

  /** Inlining a finished file only repeats lines of finished files. */
  lemma {:induction false} InlineFinished(fs: Files, file: Path, stack: set<Path>, visited: set<Path>, x: OutLine)
    requires stack <= visited && file in visited && Closed(fs, visited - stack, visited)
    requires x in Inline(fs, file, stack)
    ensures x in LinesOf(fs, visited - stack)
    decreases Remaining(fs, stack), 0
  {
    VisitMore(fs, stack, stack + {file});
    InlineLinesFinished(fs, file, |fs.content[file]|, stack + {file}, visited, x);
    if x.file == file {
      InlineLinesAvoid(fs, file, |fs.content[file]|, stack + {file}, x);
    }
  }

  lemma {:induction false} InlineLinesFinished(fs: Files, file: Path, n: nat, stack: set<Path>, visited: set<Path>,
                                               x: OutLine)
    requires file in fs.content && n <= |fs.content[file]| && file in stack && stack <= visited
    requires Closed(fs, visited - stack, visited) && forall b :: Edge(fs, file, b) ==> b in visited
    requires x in InlineLines(fs, file, n, stack)
    ensures Own(fs, x) && (x.file == file || x in LinesOf(fs, visited - stack))
    decreases Remaining(fs, stack), n + 1
  {
    if x in InlineLines(fs, file, n - 1, stack) {
      InlineLinesFinished(fs, file, n - 1, stack, visited, x);
    } else if fs.content[file][n - 1].Include? {
      var target := fs.canonical(fs.content[file][n - 1].target);
      assert Edge(fs, file, target);
      InlineFinished(fs, target, stack, visited, x);
    }
  }

  // ---- the refinement ----

  /** With `stack` the files being expanded and the rest of `visited` finished, what a file
      expands to is what inclusion gives beyond the lines of the finished files. */
  lemma {:induction false} ExpandIsFirstCopies(fs: Files, file: Path, stack: set<Path>, visited: set<Path>)
    requires stack <= visited && Closed(fs, visited - stack, visited)
    requires ExpandFile(fs, file, visited).Expanded?
    ensures NonBlank(ExpandFile(fs, file, visited).out)
            == FirstCopies(Inline(fs, file, stack), LinesOf(fs, visited - stack))
    decreases Remaining(fs, visited), 0
  {
    if file in visited {
      forall x | x in Inline(fs, file, stack) ensures x in LinesOf(fs, visited - stack) {
        InlineFinished(fs, file, stack, visited, x);
      }
      NothingNew(Inline(fs, file, stack), LinesOf(fs, visited - stack));
    } else {
      VisitMore(fs, visited, visited + {file});
      assert (visited + {file}) - (stack + {file}) == visited - stack;
      LinesAreFirstCopies(fs, file, |fs.content[file]|, stack + {file}, visited + {file});
    }
  }

  lemma {:induction false} LinesAreFirstCopies(fs: Files, file: Path, n: nat, stack: set<Path>, visited: set<Path>)
    requires file in fs.content && n <= |fs.content[file]| && file in stack
    requires stack <= visited && Closed(fs, visited - stack, visited)
    requires ExpandLines(fs, file, n, visited).Expanded?
    ensures NonBlank(ExpandLines(fs, file, n, visited).out)
            == FirstCopies(InlineLines(fs, file, n, stack), LinesOf(fs, visited - stack))
    decreases Remaining(fs, visited), n + 1
  {
    assert NonBlank([]) == [];
    hide NonBlank, LinesOf, Elements, Closed;
    var seen := LinesOf(fs, visited - stack);
    if n == 0 {
    } else {
      LinesAreFirstCopies(fs, file, n - 1, stack, visited);
      var before := ExpandLines(fs, file, n - 1, visited);
      var was, next := InlineLines(fs, file, n - 1, stack), InlineLine(fs, file, n - 1, stack);
      FirstCopiesAppend(was, next, seen);
      match fs.content[file][n - 1] {
        case Text(text) =>
          var x := From(file, n - 1, text);
          NonBlankAppend(before.out, [x]);
          NonBlankOne(x);
          NotYetSeen(fs, file, n - 1, stack, visited - stack, x);
          OneCopy(x, seen + Elements(was));
        case Include(target) =>
          IncludedFirstCopies(fs, file, n, stack, visited);
      }
    }
  }

  lemma NotYetSeen(fs: Files, file: Path, n: nat, stack: set<Path>, finished: set<Path>, x: OutLine)
    requires file in fs.content && n <= |fs.content[file]| && file in stack && file !in finished
    requires x.From? && x.file == file && x.index == n
    ensures x !in LinesOf(fs, finished) + Elements(InlineLines(fs, file, n, stack))
  {
    if x in InlineLines(fs, file, n, stack) {
      InlineLinesAvoid(fs, file, n, stack, x);
    }
  }

  lemma OneCopy(x: OutLine, seen: iset<OutLine>)
    requires x !in seen
    ensures FirstCopies([x], seen) == [x]
  {
    assert [x][1..] == [];
  }

  lemma StillClosed(fs: Files, file: Path, n: nat, stack: set<Path>, visited: set<Path>)
    requires file in fs.content && n <= |fs.content[file]|
    requires stack <= visited && Closed(fs, visited - stack, visited) && ExpandLines(fs, file, n, visited).Expanded?
    ensures var after := ExpandLines(fs, file, n, visited).visited; Closed(fs, after - stack, after)
  {
    hide ExpandLines;
    LinesClosed(fs, file, n, visited);
  }

  /** What has been seen of files off the stack: all of the finished ones. */
  lemma SeenSoFar(fs: Files, file: Path, n: nat, stack: set<Path>, visited: set<Path>, x: OutLine)
    requires file in fs.content && n <= |fs.content[file]| && file in stack && stack <= visited
    requires ExpandLines(fs, file, n, visited).Expanded? && x.From? && x.file !in stack
    requires NonBlank(ExpandLines(fs, file, n, visited).out)
             == FirstCopies(InlineLines(fs, file, n, stack), LinesOf(fs, visited - stack))
    ensures x in LinesOf(fs, visited - stack) + Elements(InlineLines(fs, file, n, stack))
            <==> x in LinesOf(fs, ExpandLines(fs, file, n, visited).visited - stack)
  {
    hide FirstCopies, NonBlank, ExpandLines, InlineLines;
    FirstCopiesElements(InlineLines(fs, file, n, stack), LinesOf(fs, visited - stack), x);
    ExpandedMembers(fs, file, n, visited, x);
  }

  lemma {:induction false} IncludedFirstCopies(fs: Files, file: Path, n: nat, stack: set<Path>, visited: set<Path>)
    requires file in fs.content && 0 < n <= |fs.content[file]| && file in stack
    requires fs.content[file][n - 1].Include?
    requires stack <= visited && Closed(fs, visited - stack, visited)
    requires ExpandLines(fs, file, n, visited).Expanded?
    requires NonBlank(ExpandLines(fs, file, n - 1, visited).out)
             == FirstCopies(InlineLines(fs, file, n - 1, stack), LinesOf(fs, visited - stack))
    ensures var seen, was := LinesOf(fs, visited - stack), InlineLines(fs, file, n - 1, stack);
            NonBlank(ExpandLines(fs, file, n, visited).out)
            == FirstCopies(was, seen) + FirstCopies(InlineLine(fs, file, n - 1, stack), seen + Elements(was))
    decreases Remaining(fs, visited), n
  {
    hide FirstCopies, NonBlank, LinesOf, Elements, InlineLines, Closed;
    var target := fs.canonical(fs.content[file][n - 1].target);
    var before := ExpandLines(fs, file, n - 1, visited);
    var seen, was := LinesOf(fs, visited - stack), InlineLines(fs, file, n - 1, stack);
    var next := InlineLine(fs, file, n - 1, stack);
    VisitMore(fs, visited, before.visited);
    var inner := ExpandFile(fs, target, before.visited);
    StillClosed(fs, file, n - 1, stack, visited);
    ExpandIsFirstCopies(fs, target, stack, before.visited);
    NonBlankAppend(before.out, inner.out);
    NonBlankOne(Blank);
    forall x | x in next ensures x in seen + Elements(was) <==> x in LinesOf(fs, before.visited - stack) {
      InlineAvoids(fs, target, stack, x);
      SeenSoFar(fs, file, n - 1, stack, visited, x);
    }
    FirstCopiesAgree(next, seen + Elements(was), LinesOf(fs, before.visited - stack));
  }

  /** From the root: the expansion is textual inclusion with every line kept at its first copy. */
  lemma ExpansionIsInlineOnce(fs: Files, root: Path)
    requires ExpandFile(fs, root, {}).Expanded?
    ensures NonBlank(ExpandFile(fs, root, {}).out) == FirstCopies(Inline(fs, root, {}), iset{})
  {
    hide ExpandFile, Inline, NonBlank, FirstCopies;
    ExpandIsFirstCopies(fs, root, {}, {});
    assert LinesOf(fs, {} - {}) == iset{};
  }
}
