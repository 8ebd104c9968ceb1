/** The AFS simulator: clients cache whole files, and the server calls back the clients
    that hold a copy when somebody else closes a changed one.

    `Sys` is the state as a value and `Next` one step of one client.  The classes carry
    out the steps; their methods are proved against `Next`.  The theorems range over all
    interleavings of non-nested sessions: no assertion fires, and an open is stale in exactly
    one situation, which the closes of a run bring about. */
module Afs {

  type File = string

  datatype Item = Item(data: int, dirty: bool, refcnt: int, valid: bool)

  type Cache = map<File, Item>

  /** contents: the server's files; lists: the callback list of each client; caches: each
      client's cache; next: the next value to be written. */
  datatype Sys = Sys(contents: map<File, int>, lists: seq<seq<File>>, caches: seq<Cache>, next: int)

  datatype Action = Open(f: File) | Read(f: File) | Write(f: File) | Close(f: File)

  ghost predicate Shaped(s: Sys) {
    |s.lists| == |s.caches|
  }

  // ----- One step

  /** list.remove: the first occurrence goes. */
  function RemoveFirst(list: seq<File>, f: File): seq<File> {
    if list == [] then [] else if list[0] == f then list[1..] else [list[0]] + RemoveFirst(list[1..], f)
  }

  function CallbackList(list: seq<File>, f: File): seq<File> {
    if f in list then RemoveFirst(list, f) else list
  }

  function Invalidated(cache: Cache, f: File): Cache
    requires f in cache
  {
    cache[f := cache[f].(valid := false)]
  }

  /** The assertions that the step of client c runs into, all of which must hold. */
  predicate Passes(s: Sys, c: nat, a: Action)
    requires |s.lists| == |s.caches| && c < |s.caches|
  {
    match a
    case Open(f) => f in s.contents
    case Read(f) => f in s.caches[c]
    case Write(f) => f in s.caches[c]
    case Close(f) =>
      f in s.caches[c] &&
      (s.caches[c][f].dirty ==>
        f in s.contents &&
        forall i :: 0 <= i < |s.lists| && i != c && f in s.lists[i] ==> f in s.caches[i])
  }

  /** getfile */
  function AfterOpen(s: Sys, c: nat, f: File): Sys
    requires |s.lists| == |s.caches| && c < |s.caches| && f in s.contents
  {
    if f in s.caches[c] && s.caches[c][f].valid then
      var item := s.caches[c][f];
      s.(caches := s.caches[c := s.caches[c][f := item.(dirty := false, refcnt := item.refcnt + 1)]])
    else
      s.(lists := s.lists[c := if f in s.lists[c] then s.lists[c] else s.lists[c] + [f]],
         caches := s.caches[c := s.caches[c][f := Item(s.contents[f], false, 1, true)]])
  }

  /** putfile: the server calls back everybody else on its list, then the copy is
      declared clean and valid. */
  function AfterPut(s: Sys, c: nat, f: File, v: int): Sys
    requires |s.lists| == |s.caches| && c < |s.caches| && f in s.caches[c]
    requires forall i :: 0 <= i < |s.lists| && i != c && f in s.lists[i] ==> f in s.caches[i]
  {
    Sys(s.contents[f := v],
        seq(|s.lists|, i requires 0 <= i < |s.lists| => if i == c then s.lists[i] else CallbackList(s.lists[i], f)),
        seq(|s.caches|, i requires 0 <= i < |s.caches| && |s.lists| == |s.caches|
              && (i != c && f in s.lists[i] ==> f in s.caches[i]) && f in s.caches[c] && c < |s.caches| =>
            if i == c then s.caches[c][f := s.caches[c][f].(dirty := false, valid := true)]
            else if f in s.lists[i] then Invalidated(s.caches[i], f)
            else s.caches[i]),
        s.next)
  }

  /** decref and checkvalid */
  function Released(cache: Cache, f: File): Cache
    requires f in cache
  {
    var item := cache[f].(refcnt := cache[f].refcnt - 1);
    if !item.valid && item.refcnt == 0 then cache - {f} else cache[f := item]
  }

  function Next(s: Sys, c: nat, a: Action): Sys
    requires |s.lists| == |s.caches| && c < |s.caches| && Passes(s, c, a)
  {
    match a
    case Open(f) => AfterOpen(s, c, f)
    case Read(f) => s
    case Write(f) =>
      s.(caches := s.caches[c := s.caches[c][f := s.caches[c][f].(data := s.next, dirty := true)]], next := s.next + 1)
    case Close(f) =>
      var item := s.caches[c][f];
      var t := if item.dirty then AfterPut(s, c, f, item.data) else s;
      t.(caches := t.caches[c := Released(t.caches[c], f)])
  }

  // ----- Sessions

  /** The files that each client has open. */
  type Sessions = seq<set<File>>

  predicate NotNested(open: Sessions, c: nat, a: Action)
    requires c < |open|
  {
    match a
    case Open(f) => f !in open[c]
    case Read(f) => f in open[c]
    case Write(f) => f in open[c]
    case Close(f) => f in open[c]
  }

  function NextSessions(open: Sessions, c: nat, a: Action): Sessions
    requires c < |open|
  {
    match a
    case Open(f) => open[c := open[c] + {f}]
    case Close(f) => open[c := open[c] - {f}]
    case _ => open
  }

  // ----- The invariant

  ghost predicate NoDuplicates(list: seq<File>) {
    forall i, j :: 0 <= i < j < |list| ==> list[i] != list[j]
  }

  /** What holds between the server, client i and file f. */
  ghost predicate FileOk(contents: map<File, int>, list: seq<File>, cache: Cache, open: set<File>, f: File) {
    (f in list ==> f in contents && f in cache && cache[f].valid) &&
    (f in list && !cache[f].dirty ==> cache[f].data == contents[f]) &&
    (f in cache ==> f in contents && cache[f].refcnt == (if f in open then 1 else 0)) &&
    (f in cache && cache[f].dirty ==> f in open) &&
    (f in open ==> f in cache)
  }

  ghost predicate ClientOk(contents: map<File, int>, list: seq<File>, cache: Cache, open: set<File>) {
    NoDuplicates(list) && forall f :: FileOk(contents, list, cache, open, f)
  }

  ghost predicate Inv(s: Sys, open: Sessions) {
    |s.lists| == |s.caches| == |open| &&
    forall i :: 0 <= i < |s.caches| ==> ClientOk(s.contents, s.lists[i], s.caches[i], open[i])
  }

  /** Only registered copies are valid. */
  ghost predicate Coherent(s: Sys) {
    |s.lists| == |s.caches| &&
    forall i, f :: 0 <= i < |s.caches| && f in s.caches[i] && s.caches[i][f].valid ==> f in s.lists[i]
  }

  /** The client closes a changed copy that a callback has invalidated meanwhile. */
  predicate ClosesInvalidated(s: Sys, c: nat, a: Action)
    requires c < |s.caches|
  {
    a.Close? && a.f in s.caches[c] && s.caches[c][a.f].dirty && !s.caches[c][a.f].valid
  }

  lemma {:induction false} RemoveFirstIs(list: seq<File>, f: File)
    requires NoDuplicates(list)
    ensures NoDuplicates(RemoveFirst(list, f))
    ensures forall x :: x in RemoveFirst(list, f) <==> x in list && x != f
  {
    if list != [] && list[0] != f {
      RemoveFirstIs(list[1..], f);
      assert list == [list[0]] + list[1..];
      assert list[0] !in RemoveFirst(list[1..], f);
    }
  }

  /** No assertion fires, invalidate's included. */
  lemma InvPasses(s: Sys, open: Sessions, c: nat, a: Action)
    requires Inv(s, open) && c < |open| && NotNested(open, c, a)
    requires a.Open? ==> a.f in s.contents
    ensures Passes(s, c, a)
  {
    assert ClientOk(s.contents, s.lists[c], s.caches[c], open[c]);
    assert FileOk(s.contents, s.lists[c], s.caches[c], open[c], a.f);
    forall i | 0 <= i < |s.lists| && a.f in s.lists[i] ensures a.f in s.caches[i] {
      assert ClientOk(s.contents, s.lists[i], s.caches[i], open[i]);
      assert FileOk(s.contents, s.lists[i], s.caches[i], open[i], a.f);
    }
  }

  /** One step of any client keeps the invariant. */
  lemma InvNext(s: Sys, open: Sessions, c: nat, a: Action)
    requires Inv(s, open) && c < |open| && NotNested(open, c, a)
    requires Passes(s, c, a)
    ensures Inv(Next(s, c, a), NextSessions(open, c, a))
  {
    var t, open' := Next(s, c, a), NextSessions(open, c, a);
    forall i | 0 <= i < |open| ensures ClientOk(t.contents, t.lists[i], t.caches[i], open'[i]) {
      assert ClientOk(s.contents, s.lists[i], s.caches[i], open[i]);
      RemoveFirstIs(s.lists[i], a.f);
      forall f ensures FileOk(t.contents, t.lists[i], t.caches[i], open'[i], f) {
        assert FileOk(s.contents, s.lists[i], s.caches[i], open[i], f);
        assert FileOk(s.contents, s.lists[i], s.caches[i], open[i], a.f);
      }
    }
  }

  /** After a close the copy stays in the client's cache exactly if it was changed or not called back meanwhile, and
      then it is a clean, valid copy of what the client has seen; its other copies stay as they are. */
  lemma ClosedCopy(s: Sys, open: Sessions, c: nat, f: File)
    requires Inv(s, open) && c < |open| && NotNested(open, c, Close(f)) && Passes(s, c, Close(f))
    ensures var t, item := Next(s, c, Close(f)).caches[c], s.caches[c][f];
      (f in t <==> item.dirty || item.valid)
      && (f in t ==> t[f] == Item(item.data, false, 0, true))
      && forall g :: g != f ==> (g in t <==> g in s.caches[c]) && (g in t ==> t[g] == s.caches[c][g])
  {
    assert ClientOk(s.contents, s.lists[c], s.caches[c], open[c]);
    assert FileOk(s.contents, s.lists[c], s.caches[c], open[c], f);
  }

  // ----- When copies are fresh

  /** A coherent state stays coherent exactly when the step is not the close of a changed,
      already invalidated copy. */
  lemma CoherentNext(s: Sys, open: Sessions, c: nat, a: Action)
    requires Inv(s, open) && c < |open| && NotNested(open, c, a)
    requires Passes(s, c, a) && Coherent(s)
    ensures Coherent(Next(s, c, a)) <==> !ClosesInvalidated(s, c, a)
  {
    var t := Next(s, c, a);
    assert ClientOk(s.contents, s.lists[c], s.caches[c], open[c]);
    assert FileOk(s.contents, s.lists[c], s.caches[c], open[c], a.f);
    if ClosesInvalidated(s, c, a) {
      assert a.f in t.caches[c] && t.caches[c][a.f].valid && a.f !in t.lists[c];
    } else {
      forall i, f | 0 <= i < |t.caches| && f in t.caches[i] && t.caches[i][f].valid ensures f in t.lists[i] {
        assert ClientOk(s.contents, s.lists[i], s.caches[i], open[i]);
        RemoveFirstIs(s.lists[i], a.f);
        assert f in s.caches[i] && s.caches[i][f].valid ==> f in s.lists[i];
      }
    }
  }

  /** In a coherent state every open gives the server's contents, from the local copy too. */
  lemma OpenIsFresh(s: Sys, open: Sessions, c: nat, f: File)
    requires Inv(s, open) && c < |open| && f !in open[c] && f in s.contents && Coherent(s)
    ensures f in Next(s, c, Open(f)).caches[c] && Next(s, c, Open(f)).caches[c][f].data == s.contents[f]
  {
    assert ClientOk(s.contents, s.lists[c], s.caches[c], open[c]);
    assert FileOk(s.contents, s.lists[c], s.caches[c], open[c], f);
  }

  /** The client takes its copy for valid, but nobody will call it back. */
  ghost predicate Detached(s: Sys, i: nat, f: File) {
    i < |s.caches| == |s.lists| && f in s.caches[i] && s.caches[i][f].valid && f !in s.lists[i]
  }

  /** A copy is detached by the close of a changed, already invalidated copy and in no other way, and for ever. */
  lemma DetachedNext(s: Sys, open: Sessions, c: nat, a: Action, i: nat, f: File)
    requires Inv(s, open) && c < |open| && NotNested(open, c, a) && i < |open|
    requires Passes(s, c, a)
    ensures Detached(Next(s, c, a), i, f)
        <==> Detached(s, i, f) || (i == c && a == Close(f) && ClosesInvalidated(s, c, a))
  {
    assert ClientOk(s.contents, s.lists[i], s.caches[i], open[i]);
    assert FileOk(s.contents, s.lists[i], s.caches[i], open[i], f);
    RemoveFirstIs(s.lists[i], f);
    RemoveFirstIs(s.lists[i], a.f);
  }

  /** The data of client i's copy of f is a value that was written, and only there. */
  ghost predicate Written(s: Sys, i: nat, f: File) {
    i < |s.caches| && f in s.caches[i] && (s.caches[i][f].dirty || Detached(s, i, f))
  }

  /** Written values are told apart, and a detached copy agrees with the server if its client closed last. */
  ghost predicate Distinct(s: Sys, f: File, last: int) {
    (forall i: nat :: Written(s, i, f) ==> s.caches[i][f].data < s.next)
    && (forall i: nat, j: nat :: i != j && Written(s, i, f) && Written(s, j, f) && s.caches[j][f].dirty
          ==> s.caches[i][f].data != s.caches[j][f].data)
    && (forall i: nat :: Detached(s, i, f) && !s.caches[i][f].dirty && f in s.contents
          ==> (s.caches[i][f].data == s.contents[f] <==> last == i))
  }

  predicate ClosesChanged(s: Sys, c: nat, a: Action, f: File)
    requires c < |s.caches|
  {
    a == Close(f) && f in s.caches[c] && s.caches[c][f].dirty
  }

  /** Detached copies after a step, for all clients. */
  lemma DetachedAll(s: Sys, open: Sessions, c: nat, a: Action, f: File)
    requires Inv(s, open) && c < |open| && NotNested(open, c, a)
    requires Passes(s, c, a)
    ensures forall i: nat ::
      Detached(Next(s, c, a), i, f) <==> Detached(s, i, f) || (i == c && a == Close(f) && ClosesInvalidated(s, c, a))
  {
    forall i: nat
      ensures Detached(Next(s, c, a), i, f)
        <==> Detached(s, i, f) || (i == c && a == Close(f) && ClosesInvalidated(s, c, a))
    {
      if i < |open| {
        DetachedNext(s, open, c, a, i, f);
      }
    }
  }

  /** A step that leaves the data of written copies alone and writes or closes none. */
  lemma DistinctStays(s: Sys, t: Sys, f: File, last: int)
    requires Distinct(s, f, last) && s.next <= t.next
    requires forall i: nat :: Detached(t, i, f) ==> Detached(s, i, f)
    requires forall i: nat :: Written(t, i, f) ==> Written(s, i, f)
    requires forall i: nat :: Written(t, i, f) ==> t.caches[i][f].data == s.caches[i][f].data
    requires forall i: nat :: Written(t, i, f) ==> t.caches[i][f].dirty == s.caches[i][f].dirty
    requires f in t.contents ==> f in s.contents && t.contents[f] == s.contents[f]
    ensures Distinct(t, f, last)
  {
  }

  lemma DistinctWrite(s: Sys, t: Sys, f: File, c: nat, last: int)
    requires Distinct(s, f, last) && t.next == s.next + 1 && t.contents == s.contents
    requires c < |t.caches| && f in t.caches[c] && t.caches[c][f].data == s.next && t.caches[c][f].dirty
    requires forall i: nat :: Detached(t, i, f) ==> Detached(s, i, f)
    requires forall i: nat :: i != c && Written(t, i, f) ==> Written(s, i, f) && t.caches[i][f] == s.caches[i][f]
    ensures Distinct(t, f, last)
  {
  }

  lemma DistinctClose(s: Sys, t: Sys, f: File, c: nat, last: int)
    requires Distinct(s, f, last) && t.next == s.next && Written(s, c, f) && s.caches[c][f].dirty
    requires f in t.contents && t.contents[f] == s.caches[c][f].data
    requires forall i: nat :: Detached(t, i, f) ==> Written(s, i, f)
    requires forall i: nat :: Written(t, i, f) ==> Written(s, i, f)
    requires forall i: nat :: Written(t, i, f) ==> t.caches[i][f].data == s.caches[i][f].data
    requires forall i: nat :: Written(t, i, f) ==> t.caches[i][f].dirty == (i != c && s.caches[i][f].dirty)
    ensures Distinct(t, f, c)
  {
  }

  lemma DistinctNext(s: Sys, open: Sessions, c: nat, a: Action, f: File, last: int)
    requires Inv(s, open) && c < |open| && NotNested(open, c, a)
    requires Passes(s, c, a) && Distinct(s, f, last)
    ensures Distinct(Next(s, c, a), f, if ClosesChanged(s, c, a, f) then c else last)
  {
    var t := Next(s, c, a);
    DetachedAll(s, open, c, a, f);
    assert ClientOk(s.contents, s.lists[c], s.caches[c], open[c]);
    assert FileOk(s.contents, s.lists[c], s.caches[c], open[c], f);
    if ClosesChanged(s, c, a, f) {
      DistinctClose(s, t, f, c, last);
    } else if a == Write(f) {
      DistinctWrite(s, t, f, c, last);
    } else {
      DistinctStays(s, t, f, last);
    }
  }

  // ----- Runs

  datatype Turn = Turn(client: nat, action: Action)

  function Start(contents: map<File, int>, clients: nat, next: int): Sys {
    Sys(contents, seq(clients, _ => []), seq(clients, _ => map[]), next)
  }

  /** The states of a run: every turn starts from the state before it, does not nest
      sessions and opens an existing file. */
  ghost predicate Run(turns: seq<Turn>, states: seq<Sys>, opens: seq<Sessions>) {
    |states| == |opens| == |turns| + 1 &&
    (exists contents, clients: nat, next :: states[0] == Start(contents, clients, next)
                                            && opens[0] == seq(clients, _ => {})) &&
    forall k :: 0 <= k < |turns| ==> TurnAt(turns, states, opens, k)
  }

  ghost predicate TurnAt(turns: seq<Turn>, states: seq<Sys>, opens: seq<Sessions>, k: nat)
    requires |states| == |opens| == |turns| + 1 && k < |turns|
  {
    var c, a := turns[k].client, turns[k].action;
    Shaped(states[k]) && c < |states[k].caches| == |opens[k]| && NotNested(opens[k], c, a) &&
    (a.Open? ==> a.f in states[k].contents) && opens[k + 1] == NextSessions(opens[k], c, a) &&
    (Passes(states[k], c, a) ==> states[k + 1] == Next(states[k], c, a))
  }

  lemma StartOk(contents: map<File, int>, clients: nat, next: int)
    ensures Inv(Start(contents, clients, next), seq(clients, _ => {})) && Coherent(Start(contents, clients, next))
  {
    var s, open := Start(contents, clients, next), seq(clients, _ => {});
    forall i | 0 <= i < clients ensures ClientOk(s.contents, s.lists[i], s.caches[i], open[i]) {
      assert s.lists[i] == [] && s.caches[i] == map[] && open[i] == {};
    }
  }

  lemma RunStart(turns: seq<Turn>, states: seq<Sys>, opens: seq<Sessions>)
    requires Run(turns, states, opens)
    ensures Inv(states[0], opens[0]) && Coherent(states[0])
  {
    var contents, clients: nat, next :| states[0] == Start(contents, clients, next)
                                        && opens[0] == seq(clients, _ => {});
    StartOk(contents, clients, next);
  }

  /** Every state of every run satisfies the invariant, and no assertion ever fires. */
  lemma {:induction false} RunIsSafe(turns: seq<Turn>, states: seq<Sys>, opens: seq<Sessions>, k: nat)
    requires Run(turns, states, opens) && k <= |turns|
    ensures Inv(states[k], opens[k])
    ensures k < |turns| ==> TurnAt(turns, states, opens, k) && Passes(states[k], turns[k].client, turns[k].action)
  {
    if k > 0 {
      RunIsSafe(turns, states, opens, k - 1);
      InvNext(states[k - 1], opens[k - 1], turns[k - 1].client, turns[k - 1].action);
    } else {
      RunStart(turns, states, opens);
    }
    if k < |turns| {
      assert TurnAt(turns, states, opens, k);
      InvPasses(states[k], opens[k], turns[k].client, turns[k].action);
    }
  }

  /** The value of f after the first k turns as the closes alone determine it: the copy
      closed by the last client that closed f changed, or the initial contents. */
  ghost function LastClosed(turns: seq<Turn>, states: seq<Sys>, opens: seq<Sessions>, f: File, k: nat): int
    requires Run(turns, states, opens) && k <= |turns| && f in states[0].contents
  {
    if k == 0 then states[0].contents[f]
    else
      RunIsSafe(turns, states, opens, k - 1);
      var s, c, a := states[k - 1], turns[k - 1].client, turns[k - 1].action;
      if a == Close(f) && s.caches[c][f].dirty then s.caches[c][f].data
      else LastClosed(turns, states, opens, f, k - 1)
  }

  lemma {:induction false} ContentsAreLastClosed(turns: seq<Turn>, states: seq<Sys>, opens: seq<Sessions>, f: File,
                                                 k: nat)
    requires Run(turns, states, opens) && k <= |turns| && f in states[0].contents
    ensures f in states[k].contents && states[k].contents[f] == LastClosed(turns, states, opens, f, k)
  {
    if k > 0 {
      ContentsAreLastClosed(turns, states, opens, f, k - 1);
      RunIsSafe(turns, states, opens, k - 1);
      assert TurnAt(turns, states, opens, k - 1);
    }
  }

  // ----- Exactly when an open is stale

  /** In the first k turns, client c has written f since it opened it, and has not closed it yet. */
  predicate Wrote(turns: seq<Turn>, c: nat, f: File, k: nat)
    requires k <= |turns|
  {
    if k == 0 || turns[k - 1] == Turn(c, Open(f)) || turns[k - 1] == Turn(c, Close(f)) then false
    else turns[k - 1] == Turn(c, Write(f)) || Wrote(turns, c, f, k - 1)
  }

  /** Turn j closes f changed. */
  predicate ClosesWritten(turns: seq<Turn>, f: File, j: nat)
    requires j < |turns|
  {
    turns[j].action == Close(f) && Wrote(turns, turns[j].client, f, j)
  }

  /** In the first k turns, somebody else has closed f changed since client c opened it. */
  predicate Overtaken(turns: seq<Turn>, c: nat, f: File, k: nat)
    requires k <= |turns|
  {
    if k == 0 || turns[k - 1] == Turn(c, Open(f)) || turns[k - 1] == Turn(c, Close(f)) then false
    else (turns[k - 1].client != c && ClosesWritten(turns, f, k - 1)) || Overtaken(turns, c, f, k - 1)
  }

  /** Turn j ends a session in which client c wrote f and somebody else closed it changed. */
  predicate Detaches(turns: seq<Turn>, c: nat, f: File, j: nat)
    requires j < |turns|
  {
    turns[j] == Turn(c, Close(f)) && Wrote(turns, c, f, j) && Overtaken(turns, c, f, j)
  }

  predicate DetachedBefore(turns: seq<Turn>, c: nat, f: File, k: nat)
    requires k <= |turns|
  {
    exists j :: 0 <= j < k && Detaches(turns, c, f, j)
  }

  /** The client that last closed f changed in the first k turns; -1 if none did. */
  function LastCloser(turns: seq<Turn>, f: File, k: nat): int
    requires k <= |turns|
  {
    if k == 0 then -1
    else if ClosesWritten(turns, f, k - 1) then turns[k - 1].client
    else LastCloser(turns, f, k - 1)
  }

  /** During a session the copy is changed if the client wrote it and, unless detached, invalid if it was overtaken. */
  ghost predicate Tracks(s: Sys, open: Sessions, i: nat, f: File, wrote: bool, overtaken: bool) {
    i < |open| == |s.caches| && f in open[i] ==>
      f in s.caches[i] && s.caches[i][f].dirty == wrote
      && (Detached(s, i, f) || s.caches[i][f].valid == !overtaken)
  }

  lemma TracksNext(s: Sys, open: Sessions, c: nat, a: Action, i: nat, f: File, wrote: bool, overtaken: bool)
    requires Inv(s, open) && c < |open| && NotNested(open, c, a) && i < |open|
    requires Passes(s, c, a) && Tracks(s, open, i, f, wrote, overtaken)
    ensures var wrote' := !(i == c && (a == Open(f) || a == Close(f))) && (wrote || (i == c && a == Write(f)));
      var overtaken' := !(i == c && (a == Open(f) || a == Close(f)))
                        && (overtaken || (i != c && ClosesChanged(s, c, a, f)));
      Tracks(Next(s, c, a), NextSessions(open, c, a), i, f, wrote', overtaken')
  {
    DetachedNext(s, open, c, a, i, f);
    assert ClientOk(s.contents, s.lists[i], s.caches[i], open[i]);
    assert FileOk(s.contents, s.lists[i], s.caches[i], open[i], f);
    assert ClientOk(s.contents, s.lists[c], s.caches[c], open[c]);
    assert FileOk(s.contents, s.lists[c], s.caches[c], open[c], a.f);
  }

  /** What the turns say about a copy is so. */
  lemma {:induction false} RunTracks(turns: seq<Turn>, states: seq<Sys>, opens: seq<Sessions>, i: nat, f: File, k: nat)
    requires Run(turns, states, opens) && k <= |turns| && i < |opens[k]|
    ensures Tracks(states[k], opens[k], i, f, Wrote(turns, i, f, k), Overtaken(turns, i, f, k))
    decreases k, 0
  {
    if k == 0 {
      assert opens[0][i] == {};
    } else {
      var j := k - 1;
      RunIsSafe(turns, states, opens, j);
      RunTracks(turns, states, opens, i, f, j);
      ClosesTold(turns, states, opens, f, j);
      TracksNext(states[j], opens[j], turns[j].client, turns[j].action, i, f, Wrote(turns, i, f, j),
                 Overtaken(turns, i, f, j));
    }
  }

  /** Whether a turn closes f changed can be told from the turns. */
  lemma {:induction false} ClosesTold(turns: seq<Turn>, states: seq<Sys>, opens: seq<Sessions>, f: File, j: nat)
    requires Run(turns, states, opens) && j < |turns|
    ensures turns[j].client < |states[j].caches|
    ensures ClosesChanged(states[j], turns[j].client, turns[j].action, f) <==> ClosesWritten(turns, f, j)
    decreases j, 1
  {
    RunIsSafe(turns, states, opens, j);
    RunTracks(turns, states, opens, turns[j].client, f, j);
  }

  /** Who has a detached copy, and what is in it, follows from the turns alone. */
  lemma {:induction false} RunDetaches(turns: seq<Turn>, states: seq<Sys>, opens: seq<Sessions>, c: nat, f: File,
                                       k: nat)
    requires Run(turns, states, opens) && k <= |turns|
    ensures Detached(states[k], c, f) <==> DetachedBefore(turns, c, f, k)
    ensures Distinct(states[k], f, LastCloser(turns, f, k))
  {
    if k > 0 {
      var j := k - 1;
      RunDetaches(turns, states, opens, c, f, j);
      RunIsSafe(turns, states, opens, j);
      ClosesTold(turns, states, opens, f, j);
      DistinctNext(states[j], opens[j], turns[j].client, turns[j].action, f, LastCloser(turns, f, j));
      if c < |opens[j]| {
        RunTracks(turns, states, opens, c, f, j);
        DetachedNext(states[j], opens[j], turns[j].client, turns[j].action, c, f);
      }
      assert DetachedBefore(turns, c, f, k) <==> DetachedBefore(turns, c, f, j) || Detaches(turns, c, f, j);
    }
  }

  /** In every run an open gives the server's contents unless in some earlier session the client wrote the file while
      somebody else closed it changed, and somebody else was the last to close the file changed. */
  lemma OpenIsFreshIff(turns: seq<Turn>, states: seq<Sys>, opens: seq<Sessions>, k: nat)
    requires Run(turns, states, opens) && k < |turns| && turns[k].action.Open?
    ensures var c, f := turns[k].client, turns[k].action.f;
      c < |states[k + 1].caches| && f in states[k + 1].caches[c] && f in states[k].contents
      && (states[k + 1].caches[c][f].data == states[k].contents[f] <==>
            !DetachedBefore(turns, c, f, k) || LastCloser(turns, f, k) == c)
  {
    var c, f := turns[k].client, turns[k].action.f;
    RunIsSafe(turns, states, opens, k);
    RunDetaches(turns, states, opens, c, f, k);
    var s := states[k];
    assert ClientOk(s.contents, s.lists[c], s.caches[c], opens[k][c]);
    assert FileOk(s.contents, s.lists[c], s.caches[c], opens[k][c], f);
  }

  lemma CoherentIff(s: Sys)
    requires Shaped(s)
    ensures Coherent(s) <==> forall c: nat, f :: !Detached(s, c, f)
  {
    if forall c: nat, f :: !Detached(s, c, f) {
      forall i, f | 0 <= i < |s.caches| && f in s.caches[i] && s.caches[i][f].valid ensures f in s.lists[i] {
        assert !Detached(s, i, f);
      }
    }
  }

  /** Every valid copy is registered as long as no session has been such a one, and not any more after one. */
  lemma RunIsCoherent(turns: seq<Turn>, states: seq<Sys>, opens: seq<Sessions>, k: nat)
    requires Run(turns, states, opens) && k <= |turns|
    ensures Coherent(states[k]) <==> forall c: nat, f :: !DetachedBefore(turns, c, f, k)
  {
    RunIsSafe(turns, states, opens, k);
    forall c: nat, f ensures Detached(states[k], c, f) <==> DetachedBefore(turns, c, f, k) {
      RunDetaches(turns, states, opens, c, f, k);
    }
    CoherentIff(states[k]);
  }

  /** An open sees the last closed write in the same cases. */
  lemma OpenSeesLastClosed(turns: seq<Turn>, states: seq<Sys>, opens: seq<Sessions>, k: nat)
    requires Run(turns, states, opens)
    requires k < |turns| && turns[k].action.Open? && turns[k].action.f in states[0].contents
    ensures var c, f := turns[k].client, turns[k].action.f;
      c < |states[k + 1].caches| && f in states[k + 1].caches[c]
      && (states[k + 1].caches[c][f].data == LastClosed(turns, states, opens, f, k) <==>
            !DetachedBefore(turns, c, f, k) || LastCloser(turns, f, k) == c)
  {
    OpenIsFreshIff(turns, states, opens, k);
    ContentsAreLastClosed(turns, states, opens, turns[k].action.f, k);
  }

  // ----- A stale run

  /** Two clients and one file. */
  function Two(value: int, list0: seq<File>, list1: seq<File>, cache0: Cache, cache1: Cache, next: int): Sys {
    Sys(map["a" := value], [list0, list1], [cache0, cache1], next)
  }

  function Holding(data: int, dirty: bool, refcnt: int, valid: bool): Cache {
    map["a" := Item(data, dirty, refcnt, valid)]
  }

  /** One turn of the stale run: the assertions pass and the given state follows. */
  ghost predicate Follows(s: Sys, c: nat, a: Action, t: Sys) {
    Shaped(s) && c < |s.caches| && Passes(s, c, a) && Next(s, c, a) == t
  }

  lemma FollowsTwo(s: Sys, c: nat, a: Action, value: int, list0: seq<File>, list1: seq<File>, cache0: Cache,
                   cache1: Cache, next: int)
    requires Shaped(s) && |s.caches| == 2 && c < 2 && Passes(s, c, a)
    requires var t := Next(s, c, a);
      t.contents == map["a" := value] && t.next == next && |t.lists| == |t.caches| == 2
      && t.lists[0] == list0 && t.lists[1] == list1 && t.caches[0] == cache0 && t.caches[1] == cache1
    ensures Follows(s, c, a, Two(value, list0, list1, cache0, cache1, next))
  {
    var t := Next(s, c, a);
    assert t.lists == [list0, list1] && t.caches == [cache0, cache1];
  }

  function StaleState(k: nat): Sys {
    match k
    case 0 => Two(0, [], [], map[], map[], 1)
    case 1 => Two(0, ["a"], [], Holding(0, false, 1, true), map[], 1)
    case 2 => Two(0, ["a"], ["a"], Holding(0, false, 1, true), Holding(0, false, 1, true), 1)
    case 3 => Two(0, ["a"], ["a"], Holding(1, true, 1, true), Holding(0, false, 1, true), 2)
    case 4 => Two(1, ["a"], [], Holding(1, false, 0, true), Holding(0, false, 1, false), 2)
    case 5 => Two(1, ["a"], [], Holding(1, false, 0, true), Holding(2, true, 1, false), 3)
    case 6 => Two(2, [], [], Holding(1, false, 0, false), Holding(2, false, 0, true), 3)
    case 7 => Two(2, ["a"], [], Holding(2, false, 1, true), Holding(2, false, 0, true), 3)
    case 8 => Two(2, ["a"], [], Holding(3, true, 1, true), Holding(2, false, 0, true), 4)
    case 9 => Two(3, ["a"], [], Holding(3, false, 0, true), Holding(2, false, 0, true), 4)
    case _ => Two(3, ["a"], [], Holding(3, false, 0, true), Holding(2, false, 1, true), 4)
  }

  function StaleTurn(k: nat): Turn {
    match k
    case 0 => Turn(0, Open("a"))
    case 1 => Turn(1, Open("a"))
    case 2 => Turn(0, Write("a"))
    case 3 => Turn(0, Close("a"))
    case 4 => Turn(1, Write("a"))
    case 5 => Turn(1, Close("a"))
    case 6 => Turn(0, Open("a"))
    case 7 => Turn(0, Write("a"))
    case 8 => Turn(0, Close("a"))
    case _ => Turn(1, Open("a"))
  }

  function StaleOpen(k: nat): Sessions {
    match k
    case 0 => [{}, {}]
    case 1 => [{"a"}, {}]
    case 2 => [{"a"}, {"a"}]
    case 3 => [{"a"}, {"a"}]
    case 4 => [{}, {"a"}]
    case 5 => [{}, {"a"}]
    case 6 => [{}, {}]
    case 7 => [{"a"}, {}]
    case 8 => [{"a"}, {}]
    case 9 => [{}, {}]
    case _ => [{}, {"a"}]
  }

  lemma SessionsTwo(o: Sessions, c: nat, a: Action, p: Sessions)
    requires |o| == |p| == 2 && c < 2
    requires NextSessions(o, c, a)[0] == p[0] && NextSessions(o, c, a)[1] == p[1]
    ensures NextSessions(o, c, a) == p
  {
  }

  ghost predicate StaleOk(k: nat) {
    var s, t, o := StaleState(k), StaleTurn(k), StaleOpen(k);
    Follows(s, t.client, t.action, StaleState(k + 1)) && |o| == |s.caches| && t.client < |o|
    && NotNested(o, t.client, t.action) && StaleOpen(k + 1) == NextSessions(o, t.client, t.action)
  }

  lemma StaleFrom0()
    ensures StaleOk(0) && StaleOk(1)
  {
    FollowsTwo(StaleState(0), 0, Open("a"), 0, ["a"], [], Holding(0, false, 1, true), map[], 1);
    SessionsTwo(StaleOpen(0), 0, Open("a"), StaleOpen(1));
    FollowsTwo(StaleState(1), 1, Open("a"), 0, ["a"], ["a"], Holding(0, false, 1, true), Holding(0, false, 1, true), 1);
    SessionsTwo(StaleOpen(1), 1, Open("a"), StaleOpen(2));
  }

  lemma StaleFrom2()
    ensures StaleOk(2) && StaleOk(3)
  {
    FollowsTwo(StaleState(2), 0, Write("a"), 0, ["a"], ["a"], Holding(1, true, 1, true), Holding(0, false, 1, true), 2);
    SessionsTwo(StaleOpen(2), 0, Write("a"), StaleOpen(3));
    FollowsTwo(StaleState(3), 0, Close("a"), 1, ["a"], [], Holding(1, false, 0, true), Holding(0, false, 1, false), 2);
    SessionsTwo(StaleOpen(3), 0, Close("a"), StaleOpen(4));
  }

  lemma StaleFrom4()
    ensures StaleOk(4) && StaleOk(5)
  {
    FollowsTwo(StaleState(4), 1, Write("a"), 1, ["a"], [], Holding(1, false, 0, true), Holding(2, true, 1, false), 3);
    SessionsTwo(StaleOpen(4), 1, Write("a"), StaleOpen(5));
    FollowsTwo(StaleState(5), 1, Close("a"), 2, [], [], Holding(1, false, 0, false), Holding(2, false, 0, true), 3);
    SessionsTwo(StaleOpen(5), 1, Close("a"), StaleOpen(6));
  }

  lemma StaleFrom6()
    ensures StaleOk(6) && StaleOk(7)
  {
    FollowsTwo(StaleState(6), 0, Open("a"), 2, ["a"], [], Holding(2, false, 1, true), Holding(2, false, 0, true), 3);
    SessionsTwo(StaleOpen(6), 0, Open("a"), StaleOpen(7));
    FollowsTwo(StaleState(7), 0, Write("a"), 2, ["a"], [], Holding(3, true, 1, true), Holding(2, false, 0, true), 4);
    SessionsTwo(StaleOpen(7), 0, Write("a"), StaleOpen(8));
  }

  lemma StaleFrom8()
    ensures StaleOk(8) && StaleOk(9)
  {
    FollowsTwo(StaleState(8), 0, Close("a"), 3, ["a"], [], Holding(3, false, 0, true), Holding(2, false, 0, true), 4);
    SessionsTwo(StaleOpen(8), 0, Close("a"), StaleOpen(9));
    FollowsTwo(StaleState(9), 1, Open("a"), 3, ["a"], [], Holding(3, false, 0, true), Holding(2, false, 1, true), 4);
    SessionsTwo(StaleOpen(9), 1, Open("a"), StaleOpen(10));
  }

  lemma StaleAll(k: nat)
    requires k < 10
    ensures StaleOk(k)
  {
    StaleFrom0();
    StaleFrom2();
    StaleFrom4();
    StaleFrom6();
    StaleFrom8();
  }

  lemma OkTurn(turns: seq<Turn>, states: seq<Sys>, opens: seq<Sessions>, k: nat, s: Sys, t: Turn, o: Sessions)
    requires |states| == |opens| == |turns| + 1 && k < |turns| && states[k] == s && turns[k] == t && opens[k] == o
    requires Follows(s, t.client, t.action, states[k + 1]) && |o| == |s.caches| && t.client < |o|
    requires NotNested(o, t.client, t.action) && opens[k + 1] == NextSessions(o, t.client, t.action)
    ensures TurnAt(turns, states, opens, k)
  {
  }

  /** Write-sharing can make a later open stale.  Client 1 closes a changed copy that client
      0's close invalidated; it is valid again without being registered, so it is not
      called back at client 0's next close, and then opens its old copy. */
  lemma StaleRun() returns (turns: seq<Turn>, states: seq<Sys>, opens: seq<Sessions>)
    ensures Run(turns, states, opens) && |turns| == 10 && turns[9] == Turn(1, Open("a"))
    ensures states[9].contents == map["a" := 3]
    ensures |states[10].caches| == 2 && states[10].caches[1] == Holding(2, false, 1, true)
  {
    turns, states, opens :=
      seq(10, k requires 0 <= k => StaleTurn(k)), seq(11, k requires 0 <= k => StaleState(k)),
      seq(11, k requires 0 <= k => StaleOpen(k));
    StaleStart();
    assert states[0] == Start(map["a" := 0], 2, 1) && opens[0] == seq(2, _ => {});
    forall k | 0 <= k < |turns| ensures TurnAt(turns, states, opens, k) {
      StaleAll(k);
      OkTurn(turns, states, opens, k, StaleState(k), StaleTurn(k), StaleOpen(k));
    }
  }

  lemma StaleStart()
    ensures StaleState(0) == Start(map["a" := 0], 2, 1) && StaleOpen(0) == seq(2, _ => {})
  {
    var lists: seq<seq<File>>, caches: seq<Cache> := seq(2, _ => []), seq(2, _ => map[]);
    var none: Sessions := seq(2, _ => {});
    assert lists == [[], []] && caches == [map[], map[]] && none == [{}, {}];
  }

  // ----- The objects

  class Client {
    var cache: Cache

    constructor ()
      ensures cache == map[]
    {
      cache := map[];
    }

    method Put(f: File, data: int, dirty: bool, refcnt: int)
      modifies this
      ensures cache == old(cache)[f := Item(data, dirty, refcnt, true)]
    {
      cache := cache[f := Item(data, dirty, refcnt, true)];
    }

    method Update(f: File, data: int)
      requires f in cache
      modifies this
      ensures cache == old(cache)[f := old(cache)[f].(data := data, dirty := true)]
    {
      cache := cache[f := Item(data, true, cache[f].refcnt, cache[f].valid)];
    }

    method Invalidate(f: File)
      requires f in cache
      modifies this
      ensures cache == Invalidated(old(cache), f)
    {
      cache := cache[f := Item(cache[f].data, cache[f].dirty, cache[f].refcnt, false)];
    }

    method Checkvalid(f: File)
      requires f in cache
      modifies this
      ensures cache == if !old(cache)[f].valid && old(cache)[f].refcnt == 0 then old(cache) - {f} else old(cache)
    {
      if !cache[f].valid && cache[f].refcnt == 0 {
        cache := cache - {f};
      }
    }

    method AddRef(f: File, n: int)
      requires f in cache
      modifies this
      ensures cache == old(cache)[f := old(cache)[f].(refcnt := old(cache)[f].refcnt + n)]
    {
      cache := cache[f := cache[f].(refcnt := cache[f].refcnt + n)];
    }

    method SetDirty(f: File, dirty: bool)
      requires f in cache
      modifies this
      ensures cache == old(cache)[f := old(cache)[f].(dirty := dirty)]
    {
      cache := cache[f := cache[f].(dirty := dirty)];
    }

    method SetValid(f: File)
      requires f in cache
      modifies this
      ensures cache == old(cache)[f := old(cache)[f].(valid := true)]
    {
      cache := cache[f := cache[f].(valid := true)];
    }
  }

  class Server {
    var contents: map<File, int>
    var lists: seq<seq<File>>
    var next: int
    const clients: seq<Client>

    ghost predicate Valid()
      reads this
    {
      |lists| == |clients| && forall i, j :: 0 <= i < j < |clients| ==> clients[i] != clients[j]
    }

    ghost function Caches(): (r: seq<Cache>)
      reads clients
      ensures |r| == |clients| && forall i :: 0 <= i < |r| ==> r[i] == clients[i].cache
    {
      seq(|clients|, i requires 0 <= i < |clients| reads clients => clients[i].cache)
    }

    ghost function Abs(): Sys
      reads this, clients
    {
      Sys(contents, lists, Caches(), next)
    }

    /** server.get registers the client. */
    method Get(c: nat, f: File) returns (data: int)
      requires Valid() && c < |lists| && f in contents
      modifies this`lists
      ensures Valid() && data == contents[f]
      ensures lists == old(lists)[c := if f in old(lists)[c] then old(lists)[c] else old(lists)[c] + [f]]
    {
      if f !in lists[c] {
        lists := lists[c := lists[c] + [f]];
      }
      data := contents[f];
    }

    /** server.put stores the new contents and calls back everybody else on the list. */
    method Put(c: nat, f: File, v: int)
      requires Valid() && c < |lists| && f in contents
      requires forall i :: 0 <= i < |lists| && i != c && f in lists[i] ==> f in clients[i].cache
      modifies this`contents, this`lists, clients
      ensures Valid() && contents == old(contents)[f := v]
      ensures forall i :: 0 <= i < |lists| ==>
        lists[i] == (if i == c then old(lists)[i] else CallbackList(old(lists)[i], f))
        && clients[i].cache == (if i != c && f in old(lists)[i] && f in old(clients[i].cache)
                                then Invalidated(old(clients[i].cache), f) else old(clients[i].cache))
    {
      contents := contents[f := v];
      var k := 0;
      while k < |clients|
        invariant 0 <= k <= |clients| && Valid() && contents == old(contents)[f := v]
        invariant forall i :: 0 <= i < k ==>
          lists[i] == (if i == c then old(lists)[i] else CallbackList(old(lists)[i], f))
          && clients[i].cache == (if i != c && f in old(lists)[i] && f in old(clients[i].cache)
                                  then Invalidated(old(clients[i].cache), f) else old(clients[i].cache))
        invariant forall i :: k <= i < |clients| ==>
          lists[i] == old(lists)[i] && clients[i].cache == old(clients[i].cache)
      {
        if f in lists[k] && k != c {
          clients[k].Invalidate(f);
          lists := lists[k := RemoveFirst(lists[k], f)];
        }
        k := k + 1;
      }
    }

    /** client.getfile */
    method GetFile(c: nat, f: File)
      requires Valid() && c < |clients| && f in contents
      modifies this`lists, clients[c]
      ensures Valid() && Abs() == AfterOpen(old(Abs()), c, f)
    {
      var me := clients[c];
      if f in me.cache && me.cache[f].valid {
        me.SetDirty(f, false);
      } else {
        var data := Get(c, f);
        me.Put(f, data, false, 0);
      }
      me.AddRef(f, 1);
      ghost var t := AfterOpen(old(Abs()), c, f);
      assert me.cache == t.caches[c];
      assert Caches() == t.caches;
    }

    /** client.putfile */
    method PutFile(c: nat, f: File, v: int)
      requires Valid() && c < |clients| && f in contents && f in clients[c].cache
      requires forall i :: 0 <= i < |lists| && i != c && f in lists[i] ==> f in clients[i].cache
      modifies this`contents, this`lists, clients
      ensures Valid() && Abs() == AfterPut(old(Abs()), c, f, v)
    {
      ghost var t := AfterPut(Abs(), c, f, v);
      Put(c, f, v);
      clients[c].SetDirty(f, false);
      clients[c].SetValid(f);
      assert lists == t.lists;
      assert clients[c].cache == t.caches[c];
      forall i | 0 <= i < |clients| && i != c ensures clients[i].cache == t.caches[i] {
        assert old(Caches())[i] == old(clients[i].cache);
      }
      assert Caches() == t.caches;
    }

    /** A write to an open file: the next value. */
    method WriteFile(c: nat, f: File)
      requires Valid() && c < |clients| && f in clients[c].cache
      modifies this`next, clients[c]
      ensures Valid() && Abs() == Next(old(Abs()), c, Write(f))
    {
      var v := next;
      next := next + 1;
      clients[c].Update(f, v);
      ghost var t := Next(old(Abs()), c, Write(f));
      assert clients[c].cache == t.caches[c];
      assert Caches() == t.caches;
    }

    /** Dropping a reference, and an invalid copy without any. */
    method Release(c: nat, f: File)
      requires Valid() && c < |clients| && f in clients[c].cache
      modifies clients[c]
      ensures Valid() && clients[c].cache == Released(old(clients[c].cache), f)
      ensures Caches() == old(Caches())[c := clients[c].cache]
    {
      var me := clients[c];
      me.AddRef(f, -1);
      me.Checkvalid(f);
      ghost var cache := old(me.cache);
      assert cache[f := cache[f].(refcnt := cache[f].refcnt - 1)] - {f} == cache - {f};
    }

    /** client.step */
    method Step(c: nat, a: Action)
      requires Valid() && c < |clients| && Passes(Abs(), c, a)
      modifies this, clients
      ensures Valid() && Abs() == Next(old(Abs()), c, a)
    {
      var me := clients[c];
      match a {
        case Open(f) => GetFile(c, f);
        case Read(f) =>
        case Write(f) => WriteFile(c, f);
        case Close(f) =>
          if me.cache[f].dirty {
            PutFile(c, f, me.cache[f].data);
          }
          Release(c, f);
      }
    }
  }
}
