/** Including files: the path behind a directive, the recursion into the included file,
    and the count of open frames per file (preprocess/includes.go,
    preprocess/engine.go, preprocess/directives.go). */
module Includes {
  import opened Collections

  datatype Kind = Hash | Eof | OtherKind

  datatype Tok = Tok(kind: Kind, text: string, start: nat, end: nat, endsLine: bool)

  /** A file's tokens end with the end-of-file token, which occurs nowhere else. */
  predicate Terminated(toks: seq<Tok>) {
    |toks| > 0 && toks[|toks| - 1].kind == Eof && forall i :: 0 <= i < |toks| - 1 ==> toks[i].kind != Eof
  }

  datatype Target = Target(content: string, uri: string)

  /** What the host provides: files for paths, and their tokens. */
  datatype Host = Host(
    maxDepth: nat,
    resolver: Option<(string, string, bool) -> Option<Target>>,
    tokens: string -> seq<Tok>)

  ghost predicate Lexes(h: Host) { forall content: string :: Terminated(h.tokens(content)) }

  /** Everything else the run does to a file's cursor, left open: whether the lines here
      are active, and how many more tokens the construct at hand takes. */
  datatype Behaviour = Behaviour(active: nat -> bool, takes: nat -> nat)

  datatype FileInfo = FileInfo(uri: string, depth: nat)

  datatype Outcome = NotFound | Cycle | TooDeep | Opened(file: nat)

  datatype Include = Include(path: string, angle: bool, optional: bool, uri: string, outcome: Outcome)

  datatype Code = MalformedInclude | IncludeNotFound | IncludeCycle | IncludeDepthLimit

  // ---- The path behind the directive ----

  datatype Path = Malformed(resume: nat) | Path(text: string, angle: bool, resume: nat)

  predicate Blank(c: char) { c == ' ' || c == '\t' }

  /** What stands behind the directive's keyword: after blanks, a path in quotes or angle
      brackets that closes on the same line. */
  ghost predicate ReadsPath(source: string, from: nat, p: Path) {
    exists i: nat, end: nat ::
      && from <= i < end < |source|
      && (forall k :: from <= k < i ==> source[k] == ' ' || source[k] == '\t')
      && (source[i] == '<' || source[i] == '"')
      && var closer := if source[i] == '<' then '>' else '"';
      && source[end] == closer
      && (forall k :: i < k < end ==> source[k] != closer && source[k] != '\n')
      && p == Path.Path(source[i + 1..end], source[i] == '<', end + 1)
  }

  method ScanPath(source: string, from: nat) returns (p: Path)
    ensures p.Path? ==> ReadsPath(source, from, p) && forall q :: ReadsPath(source, from, q) ==> q == p
    ensures p.Malformed? ==> forall q :: !ReadsPath(source, from, q)
    ensures p.Malformed? ==> from <= p.resume
  {
    var i := from;
    while i < |source| && Blank(source[i])
      invariant from <= i
      invariant forall k :: from <= k < i && k < |source| ==> Blank(source[k])
      decreases |source| - i
    {
      i := i + 1;
    }
    if i >= |source| || (source[i] != '<' && source[i] != '"') {
      return Malformed(i);
    }
    var angle := source[i] == '<';
    var closer := if angle then '>' else '"';
    var end := i + 1;
    while end < |source| && source[end] != closer && source[end] != '\n'
      invariant i < end <= |source|
      invariant forall k :: i < k < end ==> source[k] != closer && source[k] != '\n'
    {
      end := end + 1;
    }
    if end >= |source| || source[end] != closer {
      forall q ensures !ReadsPath(source, from, q) {
        NoOtherPath(source, from, i, end, q);
      }
      return Malformed(end);
    }
    p := Path.Path(source[i + 1..end], angle, end + 1);
    forall q | ReadsPath(source, from, q) ensures q == p {
      OnlyPath(source, from, i, end, q);
    }
  }

  lemma {:induction false} OnlyPath(source: string, from: nat, i: nat, end: nat, q: Path)
    requires from <= i < end < |source| && (forall k :: from <= k < i ==> Blank(source[k]))
    requires source[i] == '<' || source[i] == '"'
    requires
      var closer := if source[i] == '<' then '>' else '"';
      source[end] == closer && forall k :: i < k < end ==> source[k] != closer && source[k] != '\n'
    requires ReadsPath(source, from, q)
    ensures q == Path.Path(source[i + 1..end], source[i] == '<', end + 1)
  {
    var j: nat, last: nat :|
      && from <= j < last < |source|
      && (forall k :: from <= k < j ==> Blank(source[k]))
      && (source[j] == '<' || source[j] == '"')
      && var closer := if source[j] == '<' then '>' else '"';
      && source[last] == closer
      && (forall k :: j < k < last ==> source[k] != closer && source[k] != '\n')
      && q == Path.Path(source[j + 1..last], source[j] == '<', last + 1);
    OneQuote(source, from, i, j);
    if last < end || end < last {
      assert false;
    }
  }

  /** The first character that is not blank. */
  lemma {:induction false} OneQuote(source: string, from: nat, i: nat, j: nat)
    requires from <= i < |source| && from <= j < |source| && !Blank(source[i]) && !Blank(source[j])
    requires forall k :: from <= k < i ==> Blank(source[k])
    requires forall k :: from <= k < j ==> Blank(source[k])
    ensures i == j
  {
  }

  lemma {:induction false} NoOtherPath(source: string, from: nat, i: nat, end: nat, q: Path)
    requires from <= i < |source| && (forall k :: from <= k < i ==> Blank(source[k]))
    requires source[i] == '<' || source[i] == '"'
    requires
      var closer := if source[i] == '<' then '>' else '"';
      && i < end <= |source|
      && (forall k :: i < k < end ==> source[k] != closer && source[k] != '\n')
      && (end == |source| || source[end] == '\n')
    ensures !ReadsPath(source, from, q)
  {
    if ReadsPath(source, from, q) {
      var j: nat, last: nat :|
        && from <= j < last < |source|
        && (forall k :: from <= k < j ==> Blank(source[k]))
        && (source[j] == '<' || source[j] == '"')
        && var closer := if source[j] == '<' then '>' else '"';
        && source[last] == closer
        && (forall k :: j < k < last ==> source[k] != closer && source[k] != '\n')
        && q == Path.Path(source[j + 1..last], source[j] == '<', last + 1);
      if j < i {
        assert false;
      } else if i < j {
        assert false;
      } else if last < end {
        assert false;
      } else if last == end {
        assert false;
      } else {
        assert false;
      }
    }
  }

  // ---- Frames ----

  class Frame {
    const source: string
    const toks: seq<Tok>
    const uri: string
    const depth: nat
    var pos: nat
    var lineStart: bool
    var endinput: bool

    ghost predicate Valid()
      reads this
    {
      Terminated(toks) && pos < |toks|
    }

    constructor (source: string, toks: seq<Tok>, uri: string, depth: nat)
      requires Terminated(toks)
      ensures Valid() && pos == 0 && lineStart && !endinput
      ensures this.source == source && this.toks == toks && this.uri == uri && this.depth == depth
    {
      this.source, this.toks, this.uri, this.depth := source, toks, uri, depth;
      pos, lineStart, endinput := 0, true, false;
    }

    predicate AtEnd()
      requires Valid()
      reads this
    {
      toks[pos].kind == Eof
    }

    method Advance() returns (t: Tok)
      requires Valid()
      modifies this`pos, this`lineStart
      ensures Valid() && t == toks[old(pos)] && lineStart == t.endsLine
      ensures pos == if old(pos) < |toks| - 1 then old(pos) + 1 else old(pos)
    {
      t := toks[pos];
      if pos < |toks| - 1 {
        pos := pos + 1;
      }
      lineStart := t.endsLine;
    }

    method CollectRestOfLine()
      requires Valid()
      modifies this`pos, this`lineStart
      ensures Valid() && old(pos) <= pos
      ensures AtEnd() || (pos > 0 && toks[pos - 1].endsLine)
    {
      while !AtEnd()
        invariant Valid() && old(pos) <= pos
        decreases |toks| - pos
      {
        var t := Advance();
        if t.endsLine {
          break;
        }
      }
    }

    /** Tokens the byte scan has passed are skipped, then the rest of the line. */
    method ResyncAndFinishLine(byteOffset: nat)
      requires Valid()
      modifies this`pos, this`lineStart
      ensures Valid() && old(pos) <= pos
      ensures pos > 0 ==> AtEnd() || toks[pos - 1].endsLine
    {
      while !AtEnd() && toks[pos].start < byteOffset
        invariant Valid() && old(pos) <= pos
        decreases |toks| - pos
      {
        pos := pos + 1;
      }
      if pos > 0 {
        lineStart := toks[pos - 1].endsLine;
      }
      if !lineStart {
        CollectRestOfLine();
      }
    }

    /** Some construct takes a number of tokens; the cursor never passes the end. */
    method Take(n: nat)
      requires Valid()
      modifies this`pos, this`lineStart
      ensures Valid() && old(pos) <= pos
    {
      var i := 0;
      while i < n
        invariant Valid() && old(pos) <= pos
      {
        var _ := Advance();
        i := i + 1;
      }
    }
  }

  // ---- Open frames ----

  function Count(stack: map<string, nat>, uri: string): nat { if uri in stack then stack[uri] else 0 }

  /** The counts are those of the open included frames, without zero entries; no file is
      open more than twice below the root, nor the nesting deeper than allowed. */
  ghost predicate Counts(stack: map<string, nat>, chain: seq<string>, max: nat) {
    && (forall u :: u in stack ==> stack[u] > 0)
    && (forall u: string :: Count(stack, u) == multiset(chain)[u])
    && AtMostTwice(chain) && |chain| <= max
  }

  ghost predicate AtMostTwice(chain: seq<string>) { forall u: string :: multiset(chain)[u] <= 2 }

  /** Each file was opened through a chain of open frames, its own last, that met the
      limits. */
  ghost predicate Traced(files: seq<FileInfo>, chains: seq<seq<string>>, max: nat) {
    && |chains| == |files| > 0
    && (forall i :: 0 <= i < |files| ==>
          files[i].depth == |chains[i]| <= max && AtMostTwice(chains[i]))
    && forall i {:trigger files[i]} :: 0 < i < |files| ==> |chains[i]| > 0 && chains[i][|chains[i]| - 1] == files[i].uri
  }

  lemma {:induction false} OpeningIsTraced(
      files: seq<FileInfo>, chains: seq<seq<string>>, chain: seq<string>, uri: string, max: nat)
    requires Traced(files, chains, max) && |chain| < max && AtMostTwice(chain + [uri])
    ensures Traced(files + [FileInfo(uri, |chain| + 1)], chains + [chain + [uri]], max)
  {
  }

  lemma {:induction false} PushCounts(stack: map<string, nat>, chain: seq<string>, uri: string, max: nat)
    requires Counts(stack, chain, max) && Count(stack, uri) < 2 && |chain| < max
    ensures Counts(stack[uri := Count(stack, uri) + 1], chain + [uri], max)
    ensures AtMostTwice(chain + [uri])
  {
    assert multiset(chain + [uri]) == multiset(chain) + multiset{uri};
  }

  /** Leaving a frame undoes entering it. */
  lemma {:induction false} PopUndoesPush(stack: map<string, nat>, chain: seq<string>, uri: string, max: nat)
    requires Counts(stack, chain, max)
    ensures
      var pushed := stack[uri := Count(stack, uri) + 1];
      var n := pushed[uri] - 1;
      (if n == 0 then pushed - {uri} else pushed[uri := n]) == stack
  {
  }

  /** How many records say that a file was opened. */
  function OpenedIn(includes: seq<Include>): nat {
    if includes == [] then 0
    else OpenedIn(includes[..|includes| - 1]) + if includes[|includes| - 1].outcome.Opened? then 1 else 0
  }

  lemma {:induction false} OneMoreRecord(includes: seq<Include>, i: Include)
    ensures OpenedIn(includes + [i]) == OpenedIn(includes) + if i.outcome.Opened? then 1 else 0
  {
    assert (includes + [i])[..|includes|] == includes;
  }

  /** A record of an opened file names it. */
  ghost predicate Named(includes: seq<Include>, files: seq<FileInfo>) {
    forall k :: 0 <= k < |includes| && includes[k].outcome.Opened? ==>
      0 < includes[k].outcome.file < |files| && files[includes[k].outcome.file].uri == includes[k].uri
  }

  lemma {:induction false} MoreFiles(includes: seq<Include>, files: seq<FileInfo>, more: seq<FileInfo>)
    requires Named(includes, files)
    ensures Named(includes, files + more)
  {
  }

  lemma {:induction false} RecordNamed(includes: seq<Include>, i: Include, files: seq<FileInfo>)
    requires Named(includes, files)
    requires i.outcome.Opened? ==> 0 < i.outcome.file < |files| && files[i.outcome.file].uri == i.uri
    ensures Named(includes + [i], files)
  {
  }

  lemma {:induction false} RootIsThere(files: seq<FileInfo>, chains: seq<seq<string>>, max: nat)
    requires Traced(files, chains, max)
    ensures |files| > 0
  {
  }

  /** What an engine has recorded. */
  datatype Log = Log(files: seq<FileInfo>, includes: seq<Include>, diags: seq<Code>, truncated: bool)

  /** The log after an active include of the path, in a file at this depth: not found,
      open twice already, too deep, or opened, and then the file is there one level
      deeper, whatever deeper ones it brought are behind it, and its record is the last. */
  ghost predicate Handled(
      h: Host, stack: map<string, nat>, depth: nat, from: string, p: Path, optional: bool, was: Log, now: Log)
    requires p.Path?
  {
    var target := if h.resolver.Some? then h.resolver.value(from, p.text, p.angle) else None;
    match target
    case None =>
      now == was.(includes := was.includes + [Include(p.text, p.angle, optional, "", NotFound)],
                  diags := was.diags + if h.resolver.Some? && !optional then [IncludeNotFound] else [])
    case Some(t) =>
      if Count(stack, t.uri) >= 2 then
        now == was.(includes := was.includes + [Include(p.text, p.angle, optional, t.uri, Cycle)],
                    diags := was.diags + [IncludeCycle])
      else if depth >= h.maxDepth then
        now == was.(includes := was.includes + [Include(p.text, p.angle, optional, t.uri, TooDeep)],
                    diags := was.diags + [IncludeDepthLimit], truncated := true)
      else
        && was.files + [FileInfo(t.uri, depth + 1)] <= now.files
        && (forall i :: |was.files| < i < |now.files| ==> now.files[i].depth > depth + 1)
        && was.includes < now.includes
        && now.includes[|now.includes| - 1] == Include(p.text, p.angle, optional, t.uri, Opened(|was.files|))
        && was.diags <= now.diags && (was.truncated ==> now.truncated)
  }

  /** What an active include directive does, by what stands behind its keyword. */
  ghost predicate Included(
      h: Host, stack: map<string, nat>, depth: nat, uri: string, source: string, from: nat, optional: bool, was: Log, now: Log)
  {
    && ((forall p :: !ReadsPath(source, from, p)) ==> now == was.(diags := was.diags + [MalformedInclude]))
    && forall p :: ReadsPath(source, from, p) ==> Handled(h, stack, depth, uri, p, optional, was, now)
  }

  class Engine {
    const h: Host
    const b: Behaviour
    var includeStack: map<string, nat>
    var files: seq<FileInfo>
    var includes: seq<Include>
    var diags: seq<Code>
    var truncated: bool
    var clock: nat
    ghost var chain: seq<string>
    ghost var chains: seq<seq<string>>

    ghost predicate Valid()
      reads this
    {
      && Lexes(h)
      && Counts(includeStack, chain, h.maxDepth)
      && Traced(files, chains, h.maxDepth)
      && Named(includes, files)
    }

    function Logged(): Log
      reads this
    {
      Log(files, includes, diags, truncated)
    }

    constructor (h: Host, b: Behaviour, rootUri: string)
      requires Lexes(h)
      ensures Valid() && this.h == h && this.b == b && chain == [] && files == [FileInfo(rootUri, 0)]
    {
      this.h, this.b := h, b;
      includeStack, files, includes, diags := map[], [FileInfo(rootUri, 0)], [], [];
      truncated, clock := false, 0;
      chain, chains := [], [[]];
    }

    /** A file from start to end. Whatever it includes, the open frames are the same
        afterwards as before. */
    method Run(f: Frame)
      requires Valid() && f.Valid() && f.depth == |chain|
      modifies this, f
      ensures Valid() && f.Valid() && (f.AtEnd() || f.endinput)
      ensures includeStack == old(includeStack) && chain == old(chain)
      ensures old(files) <= files && old(chains) <= chains && old(includes) <= includes
      ensures forall i :: |old(files)| <= i < |files| ==> f.depth < files[i].depth
      ensures old(diags) <= diags && (old(truncated) ==> truncated)
      ensures OpenedIn(includes) - OpenedIn(old(includes)) == |files| - |old(files)|
      decreases h.maxDepth - f.depth, 3
    {
      hide Lexes, Counts, Traced, Named;
      while !f.AtEnd() && !f.endinput
        invariant Valid() && f.Valid()
        invariant includeStack == old(includeStack) && chain == old(chain)
        invariant old(files) <= files && old(chains) <= chains && old(includes) <= includes
        invariant forall i :: |old(files)| <= i < |files| ==> f.depth < files[i].depth
        invariant old(diags) <= diags && (old(truncated) ==> truncated)
        invariant OpenedIn(includes) - OpenedIn(old(includes)) == |files| - |old(files)|
        decreases |f.toks| - f.pos
      {
        if f.lineStart && f.toks[f.pos].kind == Hash {
          HandleDirectiveLine(f);
        } else {
          var _ := f.Advance();
          Tick(f);
        }
      }
    }

    /** Some other construct moves the cursor on. */
    method Tick(f: Frame)
      requires Valid() && f.Valid()
      modifies this`clock, f`pos, f`lineStart
      ensures Valid() && f.Valid() && old(f.pos) <= f.pos
    {
      f.Take(b.takes(clock));
      clock := clock + 1;
    }

    method HandleDirectiveLine(f: Frame)
      requires Valid() && f.Valid() && !f.AtEnd() && f.depth == |chain|
      modifies this, f
      ensures Valid() && f.Valid() && old(f.pos) < f.pos
      ensures includeStack == old(includeStack) && chain == old(chain)
      ensures old(files) <= files && old(chains) <= chains && old(includes) <= includes
      ensures forall i :: |old(files)| <= i < |files| ==> f.depth < files[i].depth
      ensures old(diags) <= diags && (old(truncated) ==> truncated)
      ensures OpenedIn(includes) - OpenedIn(old(includes)) == |files| - |old(files)|
      decreases h.maxDepth - f.depth, 2
    {
      hide Lexes, Counts, Traced, Named;
      var _ := f.Advance();
      if f.AtEnd() {
        return;
      }
      var kw := f.toks[f.pos];
      var lineEnded := false;
      if kw.kind != Hash {
        var _ := f.Advance();
        lineEnded := kw.endsLine;
      }
      if kw.text == "include" {
        HandleInclude(f, false);
      } else if kw.text == "tryinclude" {
        HandleInclude(f, true);
      } else if kw.text == "endinput" {
        if !lineEnded {
          f.CollectRestOfLine();
        }
        if b.active(clock) {
          f.endinput := true;
        }
        clock := clock + 1;
      } else {
        Tick(f);
      }
    }

    method HandleInclude(f: Frame, optional: bool)
      requires Valid() && f.Valid() && f.pos > 0 && f.depth == |chain|
      modifies this, f
      ensures Valid() && f.Valid() && old(f.pos) <= f.pos
      ensures includeStack == old(includeStack) && chain == old(chain)
      ensures old(files) <= files && old(chains) <= chains && old(includes) <= includes
      ensures forall i :: |old(files)| <= i < |files| ==> f.depth < files[i].depth
      ensures old(diags) <= diags && (old(truncated) ==> truncated)
      ensures OpenedIn(includes) - OpenedIn(old(includes)) == |files| - |old(files)|
      ensures !b.active(old(clock)) ==> Logged() == old(Logged())
      ensures b.active(old(clock)) ==>
                Included(h, old(includeStack), f.depth, f.uri, f.source, f.toks[old(f.pos) - 1].end, optional, old(Logged()), Logged())
      decreases h.maxDepth - f.depth, 1
    {
      hide Lexes, Counts, Traced, ReadsPath, Named, Handled;
      var path := ScanPath(f.source, f.toks[f.pos - 1].end);
      var active := b.active(clock);
      clock := clock + 1;
      if path.Malformed? {
        if active {
          diags := diags + [MalformedInclude];
        }
        f.ResyncAndFinishLine(path.resume);
        return;
      }
      f.ResyncAndFinishLine(path.resume);
      if !active {
        return;
      }
      Resolve(f, path, optional);
    }

    /** An active include of a path, resolved against the file it stands in. */
    method Resolve(f: Frame, path: Path, optional: bool)
      requires Valid() && f.Valid() && f.depth == |chain| && path.Path?
      modifies this
      ensures Valid()
      ensures includeStack == old(includeStack) && chain == old(chain)
      ensures old(files) <= files && old(chains) <= chains && old(includes) <= includes
      ensures forall i :: |old(files)| <= i < |files| ==> f.depth < files[i].depth
      ensures old(diags) <= diags && (old(truncated) ==> truncated)
      ensures OpenedIn(includes) - OpenedIn(old(includes)) == |files| - |old(files)|
      ensures Handled(h, old(includeStack), f.depth, f.uri, path, optional, old(Logged()), Logged())
      decreases h.maxDepth - f.depth, 0
    {
      hide Lexes, Counts, Traced, OpenedIn, Named;
      var target := if h.resolver.Some? then h.resolver.value(f.uri, path.text, path.angle) else None;
      if target.None? {
        if h.resolver.Some? && !optional {
          diags := diags + [IncludeNotFound];
        }
        OneMoreRecord(includes, Include(path.text, path.angle, optional, "", NotFound));
        RecordNamed(includes, Include(path.text, path.angle, optional, "", NotFound), files);
        includes := includes + [Include(path.text, path.angle, optional, "", NotFound)];
        return;
      }
      var uri := target.value.uri;
      var outcome;
      if Count(includeStack, uri) >= 2 {
        diags := diags + [IncludeCycle];
        outcome := Cycle;
      } else if f.depth + 1 > h.maxDepth {
        truncated := true;
        diags := diags + [IncludeDepthLimit];
        outcome := TooDeep;
      } else {
        outcome := Opened(|files|);
        OpenFile(f, target.value);
      }
      OneMoreRecord(includes, Include(path.text, path.angle, optional, uri, outcome));
      RecordNamed(includes, Include(path.text, path.angle, optional, uri, outcome), files);
      includes := includes + [Include(path.text, path.angle, optional, uri, outcome)];
    }

    /** Enter the included file and leave it again. */
    method OpenFile(f: Frame, target: Target)
      requires Valid() && f.Valid() && f.depth == |chain| < h.maxDepth && Count(includeStack, target.uri) < 2
      modifies this
      ensures Valid()
      ensures includeStack == old(includeStack) && chain == old(chain)
      ensures 0 < |old(files)| < |files| && old(files) <= files && old(chains) <= chains && old(includes) <= includes
      ensures files[|old(files)|] == FileInfo(target.uri, f.depth + 1)
      ensures forall i :: |old(files)| < i < |files| ==> f.depth + 1 < files[i].depth
      ensures old(diags) <= diags && (old(truncated) ==> truncated)
      ensures OpenedIn(includes) - OpenedIn(old(includes)) == |files| - |old(files)| - 1
      decreases h.maxDepth - f.depth - 1, 4
    {
      hide Counts, Traced, Count, AtMostTwice, Terminated, OpenedIn, Named;
      RootIsThere(files, chains, h.maxDepth);
      MoreFiles(includes, files, [FileInfo(target.uri, f.depth + 1)]);
      var toks := h.tokens(target.content);
      PushCounts(includeStack, chain, target.uri, h.maxDepth);
      PopUndoesPush(includeStack, chain, target.uri, h.maxDepth);
      OpeningIsTraced(files, chains, chain, target.uri, h.maxDepth);
      files := files + [FileInfo(target.uri, f.depth + 1)];
      includeStack := includeStack[target.uri := Count(includeStack, target.uri) + 1];
      chain := chain + [target.uri];
      chains := chains + [chain];
      assert chain[..|chain| - 1] == old(chain);
      var child := new Frame(target.content, toks, target.uri, f.depth + 1);
      Run(child);
      var n := includeStack[target.uri] - 1;
      includeStack := if n == 0 then includeStack - {target.uri} else includeStack[target.uri := n];
      chain := chain[..|chain| - 1];
    }
  }
}
