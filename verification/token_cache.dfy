/** The shared token cache under any interleaving of its callers
    (preprocess/tokencache.go). */
module TokenCache {
  import opened Collections

  /** An abstract file content, its digest and its tokens. */
  type Content = string

  datatype Entry<T> = Entry(hash: nat, tokens: T)

  /** The lexer and the hash, which has no collisions. */
  datatype Host<!T> = Host(lex: Content -> T, hash: Content -> nat)

  ghost predicate CollisionFree<T>(h: Host<T>) {
    forall a: Content, b: Content :: h.hash(a) == h.hash(b) ==> a == b
  }

  type Entries<T> = map<string, Entry<T>>

  /** The read under the shared lock. */
  function Peek<T>(entries: Entries<T>, uri: string, hash: nat): Option<T> {
    if uri in entries && entries[uri].hash == hash then Some(entries[uri].tokens) else None
  }

  /** The write under the exclusive lock: an entry for the same content wins, any other
      is replaced. */
  function Publish<T>(entries: Entries<T>, uri: string, hash: nat, tokens: T): (Entries<T>, T) {
    if uri in entries && entries[uri].hash == hash then (entries, entries[uri].tokens)
    else (entries[uri := Entry(hash, tokens)], tokens)
  }

  /** The cache object, one critical section per method. */
  class Cache<T> {
    var entries: Entries<T>

    constructor ()
      ensures entries == map[]
    {
      entries := map[];
    }

    method Read(uri: string, hash: nat) returns (r: Option<T>)
      ensures r == Peek(entries, uri, hash)
    {
      if uri in entries {
        var entry := entries[uri];
        if entry.hash == hash {
          return Some(entry.tokens);
        }
      }
      return None;
    }

    method Write(uri: string, hash: nat, tokens: T) returns (r: T)
      modifies this
      ensures (entries, r) == Publish(old(entries), uri, hash, tokens)
    {
      if uri in entries && entries[uri].hash == hash {
        r := entries[uri].tokens;
      } else {
        entries := entries[uri := Entry(hash, tokens)];
        r := tokens;
      }
    }

    /** One caller alone: the cache may be read and written by others in between. */
    method Tokenize(h: Host<T>, uri: string, content: Content) returns (tokens: T)
      requires CollisionFree(h) && Faithful(h, entries)
      modifies this
      ensures tokens == h.lex(content) && Faithful(h, entries)
    {
      var hash := h.hash(content);
      var hit := Read(uri, hash);
      if hit.Some? {
        return hit.value;
      }
      tokens := Write(uri, hash, h.lex(content));
    }
  }

  /** Every entry holds the tokens of the content its digest stands for. */
  ghost predicate Faithful<T>(h: Host<T>, entries: Entries<T>) {
    forall uri :: uri in entries ==>
      exists c: Content {:trigger h.hash(c)} :: entries[uri].hash == h.hash(c) && entries[uri].tokens == h.lex(c)
  }

  // ---- Concurrent callers ----

  datatype Phase<T> = Asked | Missed | Lexed(tokens: T) | Done(tokens: T)

  datatype Caller<T> = Caller(uri: string, content: Content, phase: Phase<T>)

  datatype World<T> = World(entries: Entries<T>, callers: map<nat, Caller<T>>)

  /** One step of one caller: a call arrives, reads, lexes outside the lock, or
      publishes. */
  ghost predicate Step<T>(h: Host<T>, w: World<T>, w': World<T>, id: nat) {
    || (id !in w.callers && w'.entries == w.entries
        && exists uri: string, c: Content :: w'.callers == w.callers[id := Caller(uri, c, Asked)])
    || (id in w.callers && CallerStep(h, w, w', id, w.callers[id]))
  }

  ghost predicate CallerStep<T>(h: Host<T>, w: World<T>, w': World<T>, id: nat, c: Caller<T>) {
    match c.phase
    case Asked =>
      var hit := Peek(w.entries, c.uri, h.hash(c.content));
      w' == w.(callers := w.callers[id := c.(phase := if hit.Some? then Done(hit.value) else Missed)])
    case Missed =>
      w' == w.(callers := w.callers[id := c.(phase := Lexed(h.lex(c.content)))])
    case Lexed(tokens) =>
      var after := Publish(w.entries, c.uri, h.hash(c.content), tokens);
      w' == World(after.0, w.callers[id := c.(phase := Done(after.1))])
    case Done(_) => false
  }

  ghost predicate Run<T>(h: Host<T>, ws: seq<World<T>>, ids: seq<nat>) {
    && |ws| == |ids| + 1 && ws[0] == World(map[], map[])
    && forall i :: 0 <= i < |ids| ==> Step(h, ws[i], ws[i + 1], ids[i])
  }

  ghost predicate Sound<T>(h: Host<T>, w: World<T>) {
    && Faithful(h, w.entries)
    && forall id :: id in w.callers ==>
         match w.callers[id].phase
         case Lexed(tokens) => tokens == h.lex(w.callers[id].content)
         case Done(tokens) => tokens == h.lex(w.callers[id].content)
         case _ => true
  }

  lemma {:induction false} PeekIsFaithful<T>(h: Host<T>, entries: Entries<T>, uri: string, content: Content)
    requires CollisionFree(h) && Faithful(h, entries)
    ensures
      var hit := Peek(entries, uri, h.hash(content));
      hit.Some? ==> hit.value == h.lex(content)
  {
  }

  lemma {:induction false} StepKeepsSound<T>(h: Host<T>, w: World<T>, w': World<T>, id: nat)
    requires CollisionFree(h) && Sound(h, w) && Step(h, w, w', id)
    ensures Sound(h, w')
  {
    if id in w.callers {
      var c := w.callers[id];
      PeekIsFaithful(h, w.entries, c.uri, c.content);
      if c.phase.Lexed? {
        assert h.hash(c.content) == h.hash(c.content);
      }
    }
  }

  /** In every reachable state, every answered call has the tokens of the content it
      asked about, whatever others cached under the same name in between. */
  lemma {:induction false} AnswersAreOfTheContent<T>(h: Host<T>, ws: seq<World<T>>, ids: seq<nat>, id: nat)
    requires CollisionFree(h) && Run(h, ws, ids)
    requires id in ws[|ids|].callers && ws[|ids|].callers[id].phase.Done?
    ensures ws[|ids|].callers[id].phase.tokens == h.lex(ws[|ids|].callers[id].content)
  {
    RunIsSound(h, ws, ids, |ids|);
  }

  lemma {:induction false} RunIsSound<T>(h: Host<T>, ws: seq<World<T>>, ids: seq<nat>, n: nat)
    requires CollisionFree(h) && Run(h, ws, ids) && n <= |ids|
    ensures Sound(h, ws[n])
    decreases n
  {
    hide Step, Sound;
    if n == 0 {
      EmptyIsSound(h);
    } else {
      RunIsSound(h, ws, ids, n - 1);
      assert Step(h, ws[n - 1], ws[n - 1 + 1], ids[n - 1]);
      StepKeepsSound(h, ws[n - 1], ws[n], ids[n - 1]);
    }
  }

  lemma {:induction false} EmptyIsSound<T>(h: Host<T>)
    ensures Sound(h, World(map[], map[]))
  {
  }
}
