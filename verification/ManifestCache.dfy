/**
 The form manifest's cache (XFormManifestRenderer in onadata/libs/renderers/renderers.py and the manifest view):
 several requests stream the same manifest at once, the one that gets the lock fills the cache chunk by chunk.
 */
module ManifestCache {
  import opened Common
  import opened Text

  const END := "</manifest>"

  // ---------------------------------------------------------------- one request at a time

  /** The cached text after the holder adds a chunk to what it has just read. */
  function Extended(cached: Option<string>, data: string): Option<string> {
    Some(if cached.Some? then cached.value + data else data)
  }

  /** The lock is released with the closing tag, but only when there was text to add it to. */
  predicate Closes(cached: Option<string>, data: string) {
    cached.Some? && EndsWith(data, END)
  }

  /** The two cache keys of one form. */
  class Cache {
    var text: Option<string>
    var locked: bool

    /** cache.add(lock): succeeds when the key is absent. */
    method Add() returns (added: bool)
      modifies this`locked
      ensures locked && added == !old(locked)
    {
      added, locked := !locked, true;
    }
  }

  class ManifestRenderer {
    const hasKey: bool
    var canUpdate: bool

    constructor (hasKey: bool)
      ensures this.hasKey == hasKey && !canUpdate
    {
      this.hasKey, canUpdate := hasKey, false;
    }

    /** The part of stream_data before the stream starts. */
    method AcquireLock(cache: Cache)
      requires !canUpdate
      modifies this`canUpdate, cache`locked
      ensures canUpdate == (hasKey && !old(cache.locked))
      ensures cache.locked == (hasKey || old(cache.locked))
    {
      if hasKey {
        canUpdate := cache.Add();
      }
    }

    /** _get_current_buffer_data; the holder's own client receives the stripped chunk, too. */
    method CurrentBufferData(cache: Cache, buffered: Option<string>) returns (data: Option<string>)
      modifies cache
      ensures var writes := canUpdate && buffered.Some? && buffered.value != "";
              if writes then
                && data == Some(Strip(buffered.value))
                && cache.text == Extended(old(cache.text), Strip(buffered.value))
                && cache.locked == (old(cache.locked) && !Closes(old(cache.text), Strip(buffered.value)))
              else data == buffered && cache.text == old(cache.text) && cache.locked == old(cache.locked)
    {
      data := buffered;
      if data.Some? && data.value != "" && canUpdate {
        var stripped := Strip(data.value);
        data := Some(stripped);
        var cached := cache.text;
        if cached.Some? {
          cache.text := Some(cached.value + stripped);
          if EndsWith(stripped, END) {
            cache.locked := false;
          }
        } else {
          cache.text := Some(stripped);
        }
      }
    }
  }

  // ---------------------------------------------------------------- many requests interleaved

  /** Where a request is; the cache operations of one chunk are separate steps. */
  datatype Phase =
    | Waiting
    | Served(text: string)                                     // answered from the cache
    | Missed                                                   // the view found no finished manifest
    | Between                                                  // streaming, between two chunks
    | Fetched(data: string, cached: Option<string>)            // after the read
    | Stored(data: string)                                     // after the write of the closing chunk

  /**
   A request. base is the text that was cached when it got the lock; disturbed says that the cached text was
   cleared since then.
   */
  datatype Request = Request(
    chunks: seq<string>, phase: Phase, canUpdate: bool, released: bool, next: nat,
    base: Option<string>, disturbed: bool)

  datatype State = State(text: Option<string>, locked: bool, requests: seq<Request>)

  datatype Event =
    | Look(i: nat) | Begin(i: nat) | Read(i: nat) | Store(i: nat) | Release(i: nat)
    | ClearText                                                // the form's media changed, or the text expired
    | ExpireLock

  predicate Enabled(s: State, e: Event) {
    match e
    case Look(i) => i < |s.requests| && s.requests[i].phase.Waiting?
    case Begin(i) => i < |s.requests| && s.requests[i].phase.Missed?
    case Read(i) => i < |s.requests| && s.requests[i].phase.Between? && s.requests[i].next < |s.requests[i].chunks|
    case Store(i) => i < |s.requests| && s.requests[i].phase.Fetched?
    case Release(i) => i < |s.requests| && s.requests[i].phase.Stored?
    case _ => true
  }

  function AfterLook(s: State, r: Request): Request {
    r.(phase := if s.text.Some? && EndsWith(s.text.value, END) then Served(s.text.value) else Missed)
  }

  function AfterBegin(s: State, r: Request): Request {
    r.(phase := Between, canUpdate := !s.locked, base := s.text, disturbed := false)
  }

  function AfterRead(s: State, r: Request): Request
    requires r.next < |r.chunks|
  {
    var c := r.chunks[r.next];
    if c != "" && r.canUpdate then r.(phase := Fetched(Strip(c), s.text)) else r.(next := r.next + 1)
  }

  function AfterStore(r: Request): Request
    requires r.phase.Fetched?
  {
    if Closes(r.phase.cached, r.phase.data) then r.(phase := Stored(r.phase.data))
    else r.(phase := Between, next := r.next + 1)
  }

  function AfterRelease(r: Request): Request {
    r.(phase := Between, next := r.next + 1, released := true)
  }

  function Disturbed(rs: seq<Request>): (ds: seq<Request>)
    ensures |ds| == |rs|
    ensures forall i :: 0 <= i < |rs| ==> ds[i] == rs[i].(disturbed := true)
  {
    if rs == [] then [] else Disturbed(rs[..|rs| - 1]) + [rs[|rs| - 1].(disturbed := true)]
  }

  /** Steps that are not enabled do nothing. */
  function Step(s: State, e: Event): State {
    if !Enabled(s, e) then s
    else match e
      case Look(i) => s.(requests := s.requests[i := AfterLook(s, s.requests[i])])
      case Begin(i) => s.(locked := true, requests := s.requests[i := AfterBegin(s, s.requests[i])])
      case Read(i) => s.(requests := s.requests[i := AfterRead(s, s.requests[i])])
      case Store(i) =>
        s.(text := Extended(s.requests[i].phase.cached, s.requests[i].phase.data),
           requests := s.requests[i := AfterStore(s.requests[i])])
      case Release(i) => s.(locked := false, requests := s.requests[i := AfterRelease(s.requests[i])])
      case ClearText => s.(text := None, requests := Disturbed(s.requests))
      case ExpireLock => s.(locked := false)
  }

  function Run(s: State, es: seq<Event>): State
    decreases |es|
  {
    if es == [] then s else Run(Step(s, es[0]), es[1..])
  }

  /** The chunk by chunk steps of a holder, uninterrupted, do what the renderer's method does. */
  lemma ChunkAtOnce(s: State, i: nat)
    requires Enabled(s, Read(i)) && s.requests[i].canUpdate && s.requests[i].chunks[s.requests[i].next] != ""
    ensures var data, done := Strip(s.requests[i].chunks[s.requests[i].next]), Run(s, [Read(i), Store(i), Release(i)]);
            && done.text == Extended(s.text, data)
            && done.locked == (s.locked && !Closes(s.text, data))
            && |done.requests| == |s.requests| && done.requests[i].phase.Between?
                && done.requests[i].next == s.requests[i].next + 1
  {
    var es := [Read(i), Store(i), Release(i)];
    assert es[1..] == [Store(i), Release(i)] && es[1..][1..] == [Release(i)] && es[1..][1..][1..] == [];
    var s1 := Step(s, Read(i));
    var s2 := Step(s1, Store(i));
    var s3 := Step(s2, Release(i));
    assert Run(s, es) == Run(s1, es[1..]) == Run(s2, es[1..][1..]) == Run(s3, []);
  }

  // ---------------------------------------------------------------- streams of a manifest

  /** Chunks that all start a tag; only the one before the last, empty one ends with the closing tag. */
  ghost predicate Streamable(chunks: seq<string>) {
    && |chunks| >= 3 && chunks[|chunks| - 1] == ""
    && forall i :: 0 <= i < |chunks| - 1 ==> Tagged(chunks, i)
  }

  predicate Tagged(chunks: seq<string>, i: nat)
    requires i < |chunks|
  {
    var data := Strip(chunks[i]);
    data != "" && data[0] == '<' && (EndsWith(data, END) <==> i == |chunks| - 2)
  }

  /** The text of the first chunks, each stripped. */
  function Joined(chunks: seq<string>): string {
    if chunks == [] then "" else Joined(chunks[..|chunks| - 1]) + Strip(chunks[|chunks| - 1])
  }

  function Base(r: Request): string {
    if r.base.Some? then r.base.value else ""
  }

  /** What a holder's cached text must be once it has stored its first k chunks. */
  function Progress(r: Request, k: nat): Option<string>
    requires k <= |r.chunks|
  {
    if k == 0 then r.base else Some(Base(r) + Joined(r.chunks[..k]))
  }

  // ---------------------------------------------------------------- the invariant

  predicate Holds(r: Request) {
    r.canUpdate && !r.released
  }

  function StoredChunks(r: Request): nat {
    if r.phase.Stored? then r.next + 1 else r.next
  }

  ghost predicate Shape(r: Request) {
    && Streamable(r.chunks) && StoredChunks(r) <= |r.chunks|
    && (r.phase.Waiting? || r.phase.Missed? || r.phase.Served? ==> !r.canUpdate && r.next == 0)
    && (r.released ==> r.canUpdate && r.phase.Between? && r.next >= |r.chunks| - 1)
    && (r.phase.Fetched? || r.phase.Stored? ==>
          r.canUpdate && r.next < |r.chunks| - 1 && r.phase.data == Strip(r.chunks[r.next]))
    && (r.phase.Stored? ==> r.next == |r.chunks| - 2)
  }

  /** The cached text is exactly what the holder has stored so far. */
  predicate Filled(text: Option<string>, r: Request)
    requires StoredChunks(r) <= |r.chunks|
  {
    && StoredChunks(r) < |r.chunks| && r.next + 2 <= |r.chunks|
    && text == Progress(r, StoredChunks(r))
    && (r.phase.Fetched? ==> r.phase.cached == text)
  }

  ghost predicate RequestOk(s: State, r: Request) {
    && Shape(r)
    && (Holds(r) ==> s.locked)
    && (Holds(r) && !r.disturbed ==> Filled(s.text, r))
  }

  ghost predicate OneHolder(s: State) {
    forall i, j :: 0 <= i < |s.requests| && 0 <= j < |s.requests| && Holds(s.requests[i]) && Holds(s.requests[j]) ==>
        i == j
  }

  ghost predicate Good(s: State) {
    && OneHolder(s)
    && forall i :: 0 <= i < |s.requests| ==> RequestOk(s, s.requests[i])
  }

  lemma StepKeepsGood(s: State, e: Event)
    requires Good(s) && !e.ExpireLock?
    ensures Good(Step(s, e))
  {
    if Enabled(s, e) {
      match e
      case Look(i) => OthersKept(s, Step(s, e), i);
      case Begin(i) => OthersKept(s, Step(s, e), i);
      case Read(i) => ReadKeepsGood(s, i);
      case Store(i) => StoreKeepsGood(s, i);
      case Release(i) => ReleaseKeepsGood(s, i);
      case ClearText =>
    }
  }

  /** Requests other than the one that moved: nothing of theirs changed unless they hold the lock. */
  lemma OthersKept(s: State, t: State, i: nat)
    requires Good(s) && i < |s.requests| == |t.requests|
    requires forall j :: 0 <= j < |s.requests| && j != i ==> t.requests[j] == s.requests[j]
    requires t.text == s.text && (s.locked ==> t.locked)
    requires RequestOk(t, t.requests[i])
    requires Holds(t.requests[i]) ==> Holds(s.requests[i]) || !s.locked
    ensures Good(t)
  {}

  lemma Advance(r: Request, k: nat)
    requires k < |r.chunks|
    ensures Extended(Progress(r, k), Strip(r.chunks[k])) == Progress(r, k + 1)
    ensures k > 0 && Strip(r.chunks[k]) == "" ==> Progress(r, k + 1) == Progress(r, k)
  {
    var data := Strip(r.chunks[k]);
    assert r.chunks[..k + 1][..k] == r.chunks[..k];
    assert Base(r) + Joined(r.chunks[..k]) + data == Base(r) + (Joined(r.chunks[..k]) + data);
    assert "" + data == data;
    if k == 0 {
      assert Joined(r.chunks[..k]) == "";
    } else if data == "" {
      assert Joined(r.chunks[..k]) + data == Joined(r.chunks[..k]);
    }
  }

  lemma ReadKeepsGood(s: State, i: nat)
    requires Good(s) && Enabled(s, Read(i))
    ensures Good(Step(s, Read(i)))
  {
    var r := s.requests[i];
    assert RequestOk(s, r);
    var c := r.chunks[r.next];
    if !(c != "" && r.canUpdate) {
      assert c == "" ==> r.next == |r.chunks| - 1 by {
        assert r.next < |r.chunks| - 1 ==> Tagged(r.chunks, r.next);
      }
      assert Strip("") == "";
      Advance(r, r.next);
    }
    OthersKept(s, Step(s, Read(i)), i);
  }

  lemma StoreKeepsGood(s: State, i: nat)
    requires Good(s) && Enabled(s, Store(i))
    ensures Good(Step(s, Store(i)))
  {
    var t := Step(s, Store(i));
    assert RequestOk(s, s.requests[i]);
    StoredIsOk(s, s.requests[i]);
    forall j | 0 <= j < |t.requests|
      ensures RequestOk(t, t.requests[j])
    {
      assert RequestOk(s, s.requests[j]);
    }
  }

  lemma StoredIsOk(s: State, r: Request)
    requires RequestOk(s, r) && r.phase.Fetched?
    ensures RequestOk(s.(text := Extended(r.phase.cached, r.phase.data)), AfterStore(r))
    ensures Holds(r)
  {
    assert Tagged(r.chunks, r.next);
    if !r.disturbed {
      StoredIsFilled(s.text, r);
    }
  }

  lemma StoredIsFilled(text: Option<string>, r: Request)
    requires Shape(r) && r.phase.Fetched? && Filled(text, r)
    ensures Filled(Extended(r.phase.cached, r.phase.data), AfterStore(r))
  {
    Advance(r, r.next);
    assert Tagged(r.chunks, r.next);
    assert r.next > 0 ==> text.Some?;
  }

  lemma ReleaseKeepsGood(s: State, i: nat)
    requires Good(s) && Enabled(s, Release(i))
    ensures Good(Step(s, Release(i)))
  {}

  // ---------------------------------------------------------------- over whole runs

  /** Requests that have not been looked at, and nobody holding the lock. */
  ghost predicate Fresh(s: State) {
    !s.locked && forall i :: 0 <= i < |s.requests| ==> FreshRequest(s.requests[i])
  }

  ghost predicate FreshRequest(r: Request) {
    Streamable(r.chunks) && r.phase.Waiting? && !r.canUpdate && !r.released && r.next == 0
  }

  ghost predicate NoLockExpiry(es: seq<Event>) {
    forall i :: 0 <= i < |es| ==> !es[i].ExpireLock?
  }

  /** In every interleaving at most one request holds the lock, and the cached text is what it has stored so far. */
  lemma {:induction false} RunKeepsGood(s: State, es: seq<Event>)
    requires (Fresh(s) || Good(s)) && NoLockExpiry(es)
    ensures Good(Run(s, es)) && OneHolder(Run(s, es)) && HoldersFilled(Run(s, es))
    decreases |es|
  {
    FreshIsGood(s);
    if es == [] {
      forall i | 0 <= i < |s.requests|
        ensures HolderFilled(s, s.requests[i])
      {
        assert RequestOk(s, s.requests[i]);
      }
    } else {
      StepKeepsGood(s, es[0]);
      RunKeepsGood(Step(s, es[0]), es[1..]);
    }
  }

  lemma FreshIsGood(s: State)
    ensures Fresh(s) ==> Good(s)
  {
    if Fresh(s) {
      assert forall i :: 0 <= i < |s.requests| ==> FreshRequest(s.requests[i]);
    }
  }

  /** While a holder is undisturbed, the cached text is the text at acquisition followed by its chunks so far. */
  ghost predicate HoldersFilled(s: State) {
    forall i :: 0 <= i < |s.requests| ==> HolderFilled(s, s.requests[i])
  }

  predicate HolderFilled(s: State, r: Request) {
    Holds(r) && !r.disturbed ==> StoredChunks(r) < |r.chunks| && s.text == Progress(r, StoredChunks(r))
  }

  function Manifest(r: Request): string {
    Joined(r.chunks)
  }

  /** At release the cached text is the whole manifest exactly when no text was cached at acquisition. */
  lemma CompleteAtReleaseExactly(s: State, i: nat)
    requires Good(s) && Enabled(s, Release(i)) && !s.requests[i].disturbed
    ensures Step(s, Release(i)).text == Some(Base(s.requests[i]) + Manifest(s.requests[i]))
    ensures Step(s, Release(i)).text == Some(Manifest(s.requests[i])) <==> Base(s.requests[i]) == ""
    ensures !Step(s, Release(i)).locked
  {
    var r := s.requests[i];
    assert RequestOk(s, r);
    var n := |r.chunks|;
    assert Manifest(r) == Joined(r.chunks[..n - 1]) + Strip("");
    assert Strip("") == "" && Manifest(r) == Joined(r.chunks[..n - 1]);
    if Base(r) == "" {
      assert Base(r) + Manifest(r) == Manifest(r);
    } else {
      assert |Base(r) + Manifest(r)| > |Manifest(r)|;
    }
  }

  // ---------------------------------------------------------------- what the cache answers

  /** A tag at the end of a text is the end of the last chunk: chunks do not straddle it. */
  lemma TagAtEnd(text: string, data: string)
    requires data != "" && data[0] == '<'
    ensures EndsWith(text + data, END) == EndsWith(data, END)
  {
    var all, m := text + data, |END|;
    if |data| >= m {
      assert all[|all| - m..] == data[|data| - m..];
    } else {
      assert |all| >= m ==> all[|all| - m..][m - |data|] == data[0];
      assert END[m - |data|] != '<';
    }
  }

  lemma EndsWhenClosed(chunks: seq<string>, k: nat)
    requires Streamable(chunks) && 0 < k <= |chunks| - 1
    ensures EndsWith(Joined(chunks[..k]), END) <==> k == |chunks| - 1
  {
    assert Tagged(chunks, k - 1);
    assert chunks[..k][..k - 1] == chunks[..k - 1];
    TagAtEnd(Joined(chunks[..k - 1]), Strip(chunks[k - 1]));
  }

  predicate Blank(text: Option<string>) {
    text == None || text == Some("")
  }

  /**
   Runs in which the lock is only obtained while no text is cached, and the text only disappears while nobody
   holds the lock.
   */
  predicate OrderlyStep(s: State, e: Event) {
    match e
    case Begin(_) => s.locked || Blank(s.text)
    case ClearText => !s.locked
    case ExpireLock => false
    case _ => true
  }

  predicate Orderly(s: State, es: seq<Event>)
    decreases |es|
  {
    es == [] || (OrderlyStep(s, es[0]) && Orderly(Step(s, es[0]), es[1..]))
  }

  ghost predicate IsManifest(s: State, text: string) {
    exists j :: 0 <= j < |s.requests| && text == Manifest(s.requests[j])
  }

  ghost predicate Idle(s: State) {
    forall i :: 0 <= i < |s.requests| ==> !Holds(s.requests[i])
  }

  ghost predicate Tidy(s: State) {
    && (forall i :: 0 <= i < |s.requests| ==> TidyRequest(s, s.requests[i]))
    && (Idle(s) ==> Blank(s.text) || (s.text.Some? && IsManifest(s, s.text.value)))
  }

  ghost predicate TidyRequest(s: State, r: Request) {
    && (Holds(r) ==> !r.disturbed && Base(r) == "")
    && (r.phase.Served? ==> IsManifest(s, r.phase.text))
  }

  /** A text that looks finished is a finished manifest. */
  lemma FinishedIsManifest(s: State)
    requires Good(s) && Tidy(s) && s.text.Some? && EndsWith(s.text.value, END)
    ensures IsManifest(s, s.text.value)
  {
    if !Idle(s) {
      var i :| 0 <= i < |s.requests| && Holds(s.requests[i]);
      assert RequestOk(s, s.requests[i]) && TidyRequest(s, s.requests[i]);
      HolderFinished(s.text.value, s.requests[i]);
    }
  }

  lemma HolderFinished(text: string, r: Request)
    requires Shape(r) && Base(r) == "" && Filled(Some(text), r) && EndsWith(text, END)
    ensures text == Manifest(r)
  {
    var n, k := |r.chunks|, StoredChunks(r);
    assert "" + Joined(r.chunks[..k]) == Joined(r.chunks[..k]);
    assert k > 0;
    EndsWhenClosed(r.chunks, k);
    assert Strip("") == "" && Manifest(r) == Joined(r.chunks[..n - 1]);
  }

  lemma StepKeepsTidy(s: State, e: Event)
    requires Good(s) && Tidy(s) && OrderlyStep(s, e)
    ensures Tidy(Step(s, e))
  {
    if Enabled(s, e) {
      match e
      case Look(i) => LookKeepsTidy(s, i);
      case Begin(i) => BeginKeepsTidy(s, i);
      case Read(i) => SameKeepsTidy(s, Step(s, e), i);
      case Store(i) =>
        assert RequestOk(s, s.requests[i]);
        SameKeepsTidy(s, Step(s, e), i);
      case Release(i) => ReleaseKeepsTidy(s, i);
      case ClearText => ClearKeepsTidy(s);
    }
  }

  ghost predicate SameChunks(s: State, t: State) {
    |t.requests| == |s.requests| && forall j :: 0 <= j < |s.requests| ==> t.requests[j].chunks == s.requests[j].chunks
  }

  lemma ManifestsStay(s: State, t: State, text: string)
    requires SameChunks(s, t) && IsManifest(s, text)
    ensures IsManifest(t, text)
  {
    var j :| 0 <= j < |s.requests| && text == Manifest(s.requests[j]);
    assert text == Manifest(t.requests[j]);
  }

  /** A step of one request that neither takes nor gives up the lock. */
  lemma SameKeepsTidy(s: State, t: State, i: nat)
    requires Tidy(s) && SameChunks(s, t) && i < |s.requests|
    requires forall j :: 0 <= j < |s.requests| && j != i ==> t.requests[j] == s.requests[j]
    requires Holds(t.requests[i]) == Holds(s.requests[i]) && t.requests[i].base == s.requests[i].base
    requires t.requests[i].disturbed == s.requests[i].disturbed
    requires t.requests[i].phase.Served? ==> IsManifest(s, t.requests[i].phase.text)
    requires t.text == s.text || Holds(t.requests[i])
    ensures Tidy(t)
  {
    forall j | 0 <= j < |t.requests|
      ensures TidyRequest(t, t.requests[j])
    {
      assert TidyRequest(s, s.requests[j]);
      if t.requests[j].phase.Served? {
        ManifestsStay(s, t, t.requests[j].phase.text);
      }
    }
    assert Idle(t) ==> Idle(s) by {
      assert forall j :: 0 <= j < |t.requests| ==> Holds(t.requests[j]) == Holds(s.requests[j]);
    }
    if s.text.Some? && IsManifest(s, s.text.value) {
      ManifestsStay(s, t, s.text.value);
    }
  }

  lemma LookKeepsTidy(s: State, i: nat)
    requires Good(s) && Tidy(s) && Enabled(s, Look(i))
    ensures Tidy(Step(s, Look(i)))
  {
    assert RequestOk(s, s.requests[i]) && TidyRequest(s, s.requests[i]);
    if s.text.Some? && EndsWith(s.text.value, END) {
      FinishedIsManifest(s);
    }
    SameKeepsTidy(s, Step(s, Look(i)), i);
  }

  lemma BeginKeepsTidy(s: State, i: nat)
    requires Good(s) && Tidy(s) && Enabled(s, Begin(i)) && OrderlyStep(s, Begin(i))
    ensures Tidy(Step(s, Begin(i)))
  {
    var t := Step(s, Begin(i));
    assert RequestOk(s, s.requests[i]);
    if s.locked {
      SameTidyButBase(s, t, i);
    } else {
      forall j | 0 <= j < |t.requests|
        ensures TidyRequest(t, t.requests[j])
      {
        assert TidyRequest(s, s.requests[j]);
        if t.requests[j].phase.Served? {
          ManifestsStay(s, t, t.requests[j].phase.text);
        }
      }
      assert Holds(t.requests[i]);
    }
  }

  lemma SameTidyButBase(s: State, t: State, i: nat)
    requires Tidy(s) && SameChunks(s, t) && i < |s.requests| && t.text == s.text
    requires forall j :: 0 <= j < |s.requests| && j != i ==> t.requests[j] == s.requests[j]
    requires !Holds(t.requests[i]) && !Holds(s.requests[i]) && !t.requests[i].phase.Served?
    ensures Tidy(t)
  {
    forall j | 0 <= j < |t.requests|
      ensures TidyRequest(t, t.requests[j])
    {
      assert TidyRequest(s, s.requests[j]);
      if t.requests[j].phase.Served? {
        ManifestsStay(s, t, t.requests[j].phase.text);
      }
    }
    assert Idle(t) ==> Idle(s) by {
      assert forall j :: 0 <= j < |t.requests| ==> Holds(t.requests[j]) == Holds(s.requests[j]);
    }
    if s.text.Some? && IsManifest(s, s.text.value) {
      ManifestsStay(s, t, s.text.value);
    }
  }

  lemma ReleaseKeepsTidy(s: State, i: nat)
    requires Good(s) && Tidy(s) && Enabled(s, Release(i))
    ensures Tidy(Step(s, Release(i)))
  {
    var t := Step(s, Release(i));
    assert RequestOk(s, s.requests[i]) && TidyRequest(s, s.requests[i]);
    CompleteAtReleaseExactly(s, i);
    forall j | 0 <= j < |t.requests|
      ensures TidyRequest(t, t.requests[j])
    {
      assert TidyRequest(s, s.requests[j]);
      if t.requests[j].phase.Served? {
        ManifestsStay(s, t, t.requests[j].phase.text);
      }
    }
    assert t.text.value == Manifest(t.requests[i]);
  }

  lemma ClearKeepsTidy(s: State)
    requires Good(s) && Tidy(s) && !s.locked
    ensures Tidy(Step(s, ClearText))
  {
    var t := Step(s, ClearText);
    forall j | 0 <= j < |t.requests|
      ensures TidyRequest(t, t.requests[j])
    {
      assert RequestOk(s, s.requests[j]) && TidyRequest(s, s.requests[j]);
      if t.requests[j].phase.Served? {
        ManifestsStay(s, t, t.requests[j].phase.text);
      }
    }
  }

  /** In an orderly run every answer from the cache is a whole manifest. */
  lemma {:induction false} AnswersAreManifests(s: State, es: seq<Event>)
    requires (Fresh(s) && Blank(s.text)) || (Good(s) && Tidy(s))
    requires Orderly(s, es)
    ensures forall i :: 0 <= i < |Run(s, es).requests| && Run(s, es).requests[i].phase.Served? ==>
              IsManifest(Run(s, es), Run(s, es).requests[i].phase.text)
    decreases |es|
  {
    FreshIsGood(s);
    assert Fresh(s) && Blank(s.text) ==> Tidy(s) by {
      assert Fresh(s) ==> forall i :: 0 <= i < |s.requests| ==> FreshRequest(s.requests[i]);
    }
    if es == [] {
      assert forall i :: 0 <= i < |s.requests| ==> TidyRequest(s, s.requests[i]);
    } else {
      StepKeepsGood(s, es[0]);
      StepKeepsTidy(s, es[0]);
      AnswersAreManifests(Step(s, es[0]), es[1..]);
    }
  }

  // ---------------------------------------------------------------- the lookup and the lock are apart

  lemma {:induction false} RunAppend(s: State, es: seq<Event>, fs: seq<Event>)
    ensures Run(s, es + fs) == Run(Run(s, es), fs)
    decreases |es|
  {
    var all := es + fs;
    if es == [] {
      assert all == fs;
    } else {
      assert all[0] == es[0] && all[1..] == es[1..] + fs;
      RunAppend(Step(s, es[0]), es[1..], fs);
    }
  }

  lemma RunStep(s: State, e: Event, es: seq<Event>)
    ensures Run(s, [e] + es) == Run(Step(s, e), es)
  {
    RunAppend(s, [e], es);
    assert [e][1..] == [];
  }

  /** A request that missed the cache and streams two tags without being interrupted. */
  function Streaming(i: nat): seq<Event> {
    [Begin(i)] + ([Read(i)] + ([Store(i)] + ([Read(i)] + ([Store(i)] + ([Release(i)] + [])))))
  }

  function Finished(r: Request, base: Option<string>): Request {
    r.(phase := Between, canUpdate := true, released := true, next := 2, base := base, disturbed := false)
  }

  lemma StreamingAdds(s: State, i: nat, a: string, b: string)
    requires i < |s.requests| && s.requests[i] == Request([a, b, ""], Missed, false, false, 0, None, false)
    requires a != "" && b != "" && Strip(a) == a && Strip(b) == b && !EndsWith(a, END) && EndsWith(b, END)
    requires !s.locked
    ensures Run(s, Streaming(i))
         == State(Some((if s.text.Some? then s.text.value + a else a) + b), false,
                  s.requests[i := Finished(s.requests[i], s.text)])
  {
    var r := s.requests[i];
    var s1 := Step(s, Begin(i));
    var s2 := Step(s1, Read(i));
    var s3 := Step(s2, Store(i));
    var s4 := Step(s3, Read(i));
    var s5 := Step(s4, Store(i));
    var s6 := Step(s5, Release(i));
    assert s6.requests == s.requests[i := Finished(r, s.text)];
    RunStep(s5, Release(i), []);
    RunStep(s4, Store(i), [Release(i)] + []);
    RunStep(s3, Read(i), [Store(i)] + ([Release(i)] + []));
    RunStep(s2, Store(i), [Read(i)] + ([Store(i)] + ([Release(i)] + [])));
    RunStep(s1, Read(i), [Store(i)] + ([Read(i)] + ([Store(i)] + ([Release(i)] + []))));
    RunStep(s, Begin(i), [Read(i)] + ([Store(i)] + ([Read(i)] + ([Store(i)] + ([Release(i)] + [])))));
  }

  function Newcomer(a: string, b: string): Request {
    Request([a, b, ""], Waiting, false, false, 0, None, false)
  }

  function Newcomers(a: string, b: string): State {
    State(None, false, [Newcomer(a, b), Newcomer(a, b), Newcomer(a, b)])
  }

  function Race(): seq<Event> {
    [Look(0)] + ([Look(1)] + (Streaming(0) + (Streaming(1) + ([Look(2)] + []))))
  }

  lemma RaceDoubles(a: string, b: string)
    requires a != "" && b != "" && Strip(a) == a && Strip(b) == b && !EndsWith(a, END) && EndsWith(b, END)
    ensures |Run(Newcomers(a, b), Race()).requests| == 3
    ensures Run(Newcomers(a, b), Race()).requests[2].phase == Served(a + b + a + b)
  {
    var s := Newcomers(a, b);
    var s1 := Step(s, Look(0));
    var rest := Streaming(0) + (Streaming(1) + ([Look(2)] + []));
    RunStep(s, Look(0), [Look(1)] + rest);
    RunStep(s1, Look(1), rest);
    BothStream(Step(s1, Look(1)), a, b);
  }

  lemma BothStream(s: State, a: string, b: string)
    requires s == State(None, false,
        [Newcomer(a, b).(phase := Missed), Newcomer(a, b).(phase := Missed), Newcomer(a, b)])
    requires a != "" && b != "" && Strip(a) == a && Strip(b) == b && !EndsWith(a, END) && EndsWith(b, END)
    ensures var t := Run(s, Streaming(0) + (Streaming(1) + ([Look(2)] + [])));
            |t.requests| == 3 && t.requests[2].phase == Served(a + b + a + b)
  {
    StreamingAdds(s, 0, a, b);
    var s1 := Run(s, Streaming(0));
    StreamingAdds(s1, 1, a, b);
    var s2 := Run(s1, Streaming(1));
    assert s2.text == Some(a + b + a + b);
    EndsInside(a + b + a, b);
    RunAppend(s, Streaming(0), Streaming(1) + ([Look(2)] + []));
    RunAppend(s1, Streaming(1), [Look(2)] + []);
    RunStep(s2, Look(2), []);
  }

  lemma NewcomersAreFresh(a: string, b: string)
    requires a != "" && b != "" && a[0] == b[0] == '<'
    requires Strip(a) == a && Strip(b) == b && !EndsWith(a, END) && EndsWith(b, END)
    ensures Fresh(Newcomers(a, b))
  {
    var r := Newcomer(a, b);
    assert Tagged(r.chunks, 0) && Tagged(r.chunks, 1);
    assert FreshRequest(r);
  }

  lemma RaceHasNoExpiry()
    ensures NoLockExpiry(Race())
  {
    assert forall e :: e in Streaming(0) || e in Streaming(1) ==> !e.ExpireLock?;
    assert forall e :: e in Race() ==> !e.ExpireLock?;
  }

  lemma EndsInside(s: string, t: string)
    requires EndsWith(t, END)
    ensures EndsWith(s + t, END)
  {
    var all := s + t;
    assert all[|all| - |END|..] == t[|t| - |END|..];
  }

  const ROOT := "<manifest>"

  lemma TagsAreStripped()
    ensures Strip(ROOT) == ROOT && Strip(END) == END
    ensures !EndsWith(ROOT, END) && EndsWith(END, END)
  {
    assert !IsSpace('<') && !IsSpace('>');
    assert ROOT[0] == '<' && ROOT[|ROOT| - 1] == '>';
    assert END[0] == '<' && END[|END| - 1] == '>';
    assert END[|END| - |END|..] == END;
  }

  /**
   Two requests miss the cache; the second gets the lock after the first has finished, and adds its manifest to
   the finished one. A third request is then answered with the manifest twice over.
   */
  lemma ManifestTwiceOver()
    ensures Fresh(Newcomers(ROOT, END)) && NoLockExpiry(Race())
    ensures |Run(Newcomers(ROOT, END), Race()).requests| == 3
    ensures Run(Newcomers(ROOT, END), Race()).requests[2].phase == Served(ROOT + END + ROOT + END)
  {
    TagsAreStripped();
    NewcomersAreFresh(ROOT, END);
    RaceHasNoExpiry();
    RaceDoubles(ROOT, END);
  }

  // ---------------------------------------------------------------- the lock expires

  function Expiry(): seq<Event> {
    [Look(0)] + ([Look(1)]
        + ([Begin(0)] + ([Read(0)] + ([Store(0)] + ([ExpireLock] + (Streaming(1) + ([Look(2)] + [])))))))
  }

  /** The state in which the first of two requests has stored a tag and the lock is gone. */
  lemma ExpiryBegins(a: string, b: string)
    requires a != "" && Strip(a) == a
    ensures var s := Newcomers(a, b);
            var first := s.requests[0].(phase := Between, canUpdate := true, next := 1);
            var t := State(Some(a), false, [first, Newcomer(a, b).(phase := Missed), Newcomer(a, b)]);
            Run(s, Expiry()) == Run(t, Streaming(1) + ([Look(2)] + []))
  {
    var s := Newcomers(a, b);
    var rest := Streaming(1) + ([Look(2)] + []);
    var s1 := Step(s, Look(0));
    var s2 := Step(s1, Look(1));
    var s3 := Step(s2, Begin(0));
    var s4 := Step(s3, Read(0));
    var s5 := Step(s4, Store(0));
    var s6 := Step(s5, ExpireLock);
    assert s2.requests[0].phase == Missed && s3.requests[0].phase == Between
        && s4.requests[0].phase == Fetched(a, None);
    var first := s.requests[0].(phase := Between, canUpdate := true, next := 1);
    assert s6.requests == [first, Newcomer(a, b).(phase := Missed), Newcomer(a, b)];
    RunStep(s5, ExpireLock, rest);
    RunStep(s4, Store(0), [ExpireLock] + rest);
    RunStep(s3, Read(0), [Store(0)] + ([ExpireLock] + rest));
    RunStep(s2, Begin(0), [Read(0)] + ([Store(0)] + ([ExpireLock] + rest)));
    RunStep(s1, Look(1), [Begin(0)] + ([Read(0)] + ([Store(0)] + ([ExpireLock] + rest))));
    RunStep(s, Look(0), [Look(1)] + ([Begin(0)] + ([Read(0)] + ([Store(0)] + ([ExpireLock] + rest)))));
  }

  /**
   The lock expires under the first request after one tag; the second one gets the lock and finishes, and a third is
   answered with a text that begins with both.
   */
  lemma ExpiredLockMixesManifests()
    ensures Fresh(Newcomers(ROOT, END))
    ensures |Run(Newcomers(ROOT, END), Expiry()).requests| == 3
    ensures Run(Newcomers(ROOT, END), Expiry()).requests[2].phase == Served(ROOT + ROOT + END)
    ensures ROOT + ROOT + END != ROOT + END
  {
    TagsAreStripped();
    NewcomersAreFresh(ROOT, END);
    ExpiryBegins(ROOT, END);
    var first := Newcomer(ROOT, END).(phase := Between, canUpdate := true, next := 1);
    var t := State(Some(ROOT), false, [first, Newcomer(ROOT, END).(phase := Missed), Newcomer(ROOT, END)]);
    StreamingAdds(t, 1, ROOT, END);
    var t1 := Run(t, Streaming(1));
    assert t1.text == Some(ROOT + ROOT + END);
    EndsInside(ROOT + ROOT, END);
    RunAppend(t, Streaming(1), [Look(2)] + []);
    RunStep(t1, Look(2), []);
    assert |ROOT + ROOT + END| > |ROOT + END|;
  }
}
