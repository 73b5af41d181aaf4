/**
  The display server's tables: windows, clients, and the shared buffers behind the windows, as
  the message handlers, the accept loop and the disconnect handler update them.  A shared buffer is
  named by the number of buffers opened before it; opening one may fail.
 */
module WindowServer {
  const MAX_WINDOWS := 128
  const MAX_CLIENTS := 64
  const ID_LIMIT := 0x8000_0000

  datatype Window = Window(id: nat, pid: int, clientIdx: int, x: int, y: int, width: int, height: int,
                           buffer: nat, visible: bool, pendingCommit: bool)

  datatype Client = Client(fd: int, pid: int, active: bool)

  // ----- counting slots

  function VisibleCount(ws: seq<Window>): nat {
    if ws == [] then 0 else VisibleCount(ws[..|ws| - 1]) + if ws[|ws| - 1].visible then 1 else 0
  }

  function ActiveCount(cs: seq<Client>): nat {
    if cs == [] then 0 else ActiveCount(cs[..|cs| - 1]) + if cs[|cs| - 1].active then 1 else 0
  }

  lemma {:induction false} VisibleUpdate(ws: seq<Window>, i: nat, w: Window)
    requires i < |ws|
    ensures VisibleCount(ws[i := w]) == VisibleCount(ws) - (if ws[i].visible then 1 else 0) + (if w.visible then 1 else 0)
  {
    var n, vs := |ws| - 1, ws[i := w];
    if i < n {
      VisibleUpdate(ws[..n], i, w);
      assert vs[..n] == ws[..n][i := w];
    } else {
      assert vs[..n] == ws[..n];
    }
  }

  lemma {:induction false} ActiveUpdate(cs: seq<Client>, i: nat, c: Client)
    requires i < |cs|
    ensures ActiveCount(cs[i := c]) == ActiveCount(cs) - (if cs[i].active then 1 else 0) + (if c.active then 1 else 0)
  {
    var n, ds := |cs| - 1, cs[i := c];
    if i < n {
      ActiveUpdate(cs[..n], i, c);
      assert ds[..n] == cs[..n][i := c];
    } else {
      assert ds[..n] == cs[..n];
    }
  }

  // ----- what every step keeps

  /** Visible windows have their own ids, given out before, their own open buffers, and a live owner. */
  ghost predicate Consistent(ws: seq<Window>, cs: seq<Client>, nextId: nat, buffers: set<nat>) {
    && |ws| == MAX_WINDOWS && |cs| == MAX_CLIENTS
    && (forall i :: 0 <= i < |ws| && ws[i].visible ==>
          0 < ws[i].id < nextId && ws[i].buffer in buffers && 0 <= ws[i].clientIdx < |cs| && cs[ws[i].clientIdx].active)
    && (forall i, j :: 0 <= i < j < |ws| && ws[i].visible && ws[j].visible ==>
          ws[i].id != ws[j].id && ws[i].buffer != ws[j].buffer)
    && (forall b :: b in buffers ==> exists i :: 0 <= i < |ws| && ws[i].visible && ws[i].buffer == b)
  }

  lemma ShowKeeps(ws: seq<Window>, cs: seq<Client>, nextId: nat, buffers: set<nat>, i: nat, w: Window)
    requires Consistent(ws, cs, nextId, buffers) && i < |ws| && !ws[i].visible
    requires w.visible && w.id == nextId > 0 && w.buffer !in buffers && 0 <= w.clientIdx < |cs| && cs[w.clientIdx].active
    ensures Consistent(ws[i := w], cs, nextId + 1, buffers + {w.buffer})
  {
    var vs := ws[i := w];
    forall b | b in buffers + {w.buffer} ensures exists k :: 0 <= k < |vs| && vs[k].visible && vs[k].buffer == b {
      if b == w.buffer { assert vs[i].buffer == b; } else {
        var k :| 0 <= k < |ws| && ws[k].visible && ws[k].buffer == b;
        assert vs[k] == ws[k];
      }
    }
  }

  /** Taking an id, or overwriting a free slot with another hidden record, disturbs nothing. */
  lemma HiddenKeeps(ws: seq<Window>, cs: seq<Client>, nextId: nat, buffers: set<nat>, i: nat, w: Window)
    requires Consistent(ws, cs, nextId, buffers) && i < |ws| && !ws[i].visible && !w.visible
    ensures Consistent(ws[i := w], cs, nextId + 1, buffers)
  {
    var vs := ws[i := w];
    forall b | b in buffers ensures exists k :: 0 <= k < |vs| && vs[k].visible && vs[k].buffer == b {
      var k :| 0 <= k < |ws| && ws[k].visible && ws[k].buffer == b;
      assert vs[k] == ws[k];
    }
  }

  lemma HideKeeps(ws: seq<Window>, cs: seq<Client>, nextId: nat, buffers: set<nat>, i: nat)
    requires Consistent(ws, cs, nextId, buffers) && i < |ws| && ws[i].visible
    ensures Consistent(ws[i := ws[i].(visible := false)], cs, nextId, buffers - {ws[i].buffer})
  {
    var vs := ws[i := ws[i].(visible := false)];
    forall b | b in buffers - {ws[i].buffer} ensures exists k :: 0 <= k < |vs| && vs[k].visible && vs[k].buffer == b {
      var k :| 0 <= k < |ws| && ws[k].visible && ws[k].buffer == b;
      assert vs[k] == ws[k];
    }
  }

  /** Moving a window or marking it changes neither its identity nor its owner. */
  lemma TouchKeeps(ws: seq<Window>, cs: seq<Client>, nextId: nat, buffers: set<nat>, i: nat, w: Window)
    requires Consistent(ws, cs, nextId, buffers) && i < |ws| && ws[i].visible
    requires w.visible && w.id == ws[i].id && w.buffer == ws[i].buffer && w.clientIdx == ws[i].clientIdx
    ensures Consistent(ws[i := w], cs, nextId, buffers)
  {
    var vs := ws[i := w];
    forall b | b in buffers ensures exists k :: 0 <= k < |vs| && vs[k].visible && vs[k].buffer == b {
      var k :| 0 <= k < |ws| && ws[k].visible && ws[k].buffer == b;
      assert vs[k].buffer == b;
    }
  }

  lemma ClientKeeps(ws: seq<Window>, cs: seq<Client>, nextId: nat, buffers: set<nat>, c: nat, client: Client)
    requires Consistent(ws, cs, nextId, buffers) && c < |cs|
    requires client.active || forall i :: 0 <= i < |ws| && ws[i].visible ==> ws[i].clientIdx != c
    ensures Consistent(ws, cs[c := client], nextId, buffers)
  {
  }

  // ----- events

  /** What the main loop reacts to; `Bad` is a hang-up, a short message or an unknown one. */
  datatype Event =
    | Accept(fd: int, pid: int)
    | Create(client: nat, width: int, height: int, shmOk: bool)
    | Commit(client: nat, id: nat)
    | Move(client: nat, id: nat, x: int, y: int)
    | Destroy(client: nat, id: nat)
    | Bad(client: nat)

  class Server {
    const windows: array<Window>
    const clients: array<Client>
    var windowCount: int
    var nextId: nat
    var clientCount: int
    ghost var buffers: set<nat>  // the open shared buffers
    var opens: nat  // how many have been opened so far

    ghost predicate Valid()
      reads this, windows, clients
    {
      && Consistent(windows[..], clients[..], nextId, buffers)
      && windowCount == VisibleCount(windows[..]) && clientCount == ActiveCount(clients[..])
      && nextId > 0 && forall b :: b in buffers ==> b < opens
    }

    constructor ()
      ensures Valid() && fresh(windows) && fresh(clients) && Empty(Snapshot())
    {
      windows := new Window[MAX_WINDOWS](_ => Window(0, 0, 0, 0, 0, 0, 0, 0, false, false));
      clients := new Client[MAX_CLIENTS](_ => Client(0, 0, false));
      windowCount, nextId, clientCount, buffers, opens := 0, 1, 0, {}, 0;
      new;
      NoneVisible(windows[..]);
      NoneActive(clients[..]);
    }

    /** The first visible window with that id. */
    method Find(id: nat) returns (i: int)
      requires windows.Length == MAX_WINDOWS
      ensures i == -1 ==> forall k :: 0 <= k < MAX_WINDOWS ==> !(windows[k].visible && windows[k].id == id)
      ensures i != -1 ==> 0 <= i < MAX_WINDOWS && windows[i].visible && windows[i].id == id
    {
      for k := 0 to MAX_WINDOWS
        invariant forall m :: 0 <= m < k ==> !(windows[m].visible && windows[m].id == id)
      {
        if windows[k].visible && windows[k].id == id { return k; }
      }
      return -1;
    }

    method WindowCreate(client: nat, pid: int, w: int, h: int, shmOk: bool)
      returns (id: int, ghost slot: int)
      requires Valid() && client < MAX_CLIENTS && clients[client].active && nextId < ID_LIMIT
      modifies this, windows
      ensures Valid() && clients[..] == old(clients[..])
      ensures old(nextId) <= nextId <= old(nextId) + 1
      ensures id >= 0 ==> 0 <= slot < MAX_WINDOWS && !old(windows[slot].visible) && id == old(nextId)
      ensures id >= 0 ==> windows[..] == old(windows[..])[slot := Window(id, pid, client, 0, 0, w, h, old(opens), true, false)]
      ensures id >= 0 ==> buffers == old(buffers) + {old(opens)} && windowCount == old(windowCount) + 1
      ensures id < 0 ==> buffers == old(buffers) && windowCount == old(windowCount)
      ensures id < 0 ==> forall k :: 0 <= k < MAX_WINDOWS ==>
        (if old(windows[k].visible) then windows[k] == old(windows[k]) else !windows[k].visible)
      ensures id >= 0 <==> shmOk && exists k :: 0 <= k < MAX_WINDOWS && !old(windows[k].visible)
    {
      hide Consistent, VisibleCount;
      ghost var ws := windows[..];
      Sizes(ws, clients[..], nextId, buffers);
      var i := 0;
      while i < MAX_WINDOWS && windows[i].visible
        invariant 0 <= i <= MAX_WINDOWS && forall k :: 0 <= k < i ==> windows[k].visible
      {
        i := i + 1;
      }
      slot := i;
      if i >= MAX_WINDOWS { return -1, i; }
      var win := Window(nextId, pid, client, 0, 0, w, h, 0, true, false);
      if !shmOk {
        win := win.(visible := false);
        HiddenKeeps(ws, clients[..], nextId, buffers, i, win);
        VisibleUpdate(ws, i, win);
        windows[i] := win;
        assert windows[..] == ws[i := win];
        nextId := nextId + 1;
        return -1, i;
      }
      var made := win.(buffer := opens);
      ShowKeeps(ws, clients[..], nextId, buffers, i, made);
      VisibleUpdate(ws, i, made);
      windows[i] := made;
      nextId := nextId + 1;
      windowCount := windowCount + 1;
      buffers := buffers + {opens};
      opens := opens + 1;
      assert windows[..] == ws[i := made];
      return win.id, i;
    }

    /** Only the window with that id, if there is one, is hidden, and its buffer closed. */
    method WindowDestroy(id: nat)
      requires Valid()
      modifies this`windowCount, this`buffers, windows
      ensures Valid()
      ensures forall k :: 0 <= k < MAX_WINDOWS ==>
        windows[k] == old(if windows[k].visible && windows[k].id == id then windows[k].(visible := false) else windows[k])
    {
      hide Consistent, VisibleCount, ActiveCount;
      ghost var ws := windows[..];
      Sizes(ws, clients[..], nextId, buffers);
      var i := Find(id);
      if i < 0 { return; }
      HideKeeps(ws, clients[..], nextId, buffers, i);
      VisibleUpdate(ws, i, ws[i].(visible := false));
      OtherIds(ws, clients[..], nextId, buffers, i);
      buffers := buffers - {windows[i].buffer};
      windows[i] := windows[i].(visible := false);
      assert windows[..] == ws[i := ws[i].(visible := false)];
      windowCount := windowCount - 1;
    }

    method WindowMove(id: nat, x: int, y: int)
      requires Valid()
      modifies windows
      ensures Valid()
      ensures forall k :: 0 <= k < MAX_WINDOWS ==>
        windows[k] == old(if windows[k].visible && windows[k].id == id then windows[k].(x := x, y := y) else windows[k])
    {
      hide Consistent, VisibleCount, ActiveCount;
      ghost var ws := windows[..];
      Sizes(ws, clients[..], nextId, buffers);
      var i := Find(id);
      if i < 0 { return; }
      var w := windows[i].(x := x, y := y);
      TouchKeeps(ws, clients[..], nextId, buffers, i, w);
      VisibleUpdate(ws, i, w);
      OtherIds(ws, clients[..], nextId, buffers, i);
      windows[i] := w;
      assert windows[..] == ws[i := w];
    }

    method WindowMarkCommitted(id: nat)
      requires Valid()
      modifies windows
      ensures Valid()
      ensures forall k :: 0 <= k < MAX_WINDOWS ==>
        windows[k] == old(if windows[k].visible && windows[k].id == id then windows[k].(pendingCommit := true) else windows[k])
    {
      hide Consistent, VisibleCount, ActiveCount;
      ghost var ws := windows[..];
      Sizes(ws, clients[..], nextId, buffers);
      var i := Find(id);
      if i < 0 { return; }
      var w := windows[i].(pendingCommit := true);
      TouchKeeps(ws, clients[..], nextId, buffers, i, w);
      VisibleUpdate(ws, i, w);
      OtherIds(ws, clients[..], nextId, buffers, i);
      windows[i] := w;
      assert windows[..] == ws[i := w];
    }

    /** The first free client slot; whoever takes it owns no window yet. */
    method SocketAccept(fd: int, pid: int) returns (c: int)
      requires Valid()
      modifies this`clientCount, clients
      ensures Valid() && (c < 0 ==> clients[..] == old(clients[..]) && clientCount == old(clientCount))
      ensures c >= 0 ==> c < MAX_CLIENTS && !old(clients[c].active) && clients[..] == old(clients[..])[c := Client(fd, pid, true)]
      ensures c >= 0 ==> clientCount == old(clientCount) + 1
      ensures c >= 0 ==> forall k :: 0 <= k < MAX_WINDOWS && windows[k].visible ==> windows[k].clientIdx != c
      ensures c >= 0 <==> fd >= 0 && exists k :: 0 <= k < MAX_CLIENTS && !old(clients[k].active)
    {
      hide VisibleCount, ActiveCount;
      ghost var cs := clients[..];
      Sizes(windows[..], cs, nextId, buffers);
      if fd < 0 { return -1; }
      var i := 0;
      while i < MAX_CLIENTS && clients[i].active
        invariant 0 <= i <= MAX_CLIENTS && forall k :: 0 <= k < i ==> clients[k].active
      {
        i := i + 1;
      }
      if i >= MAX_CLIENTS { return -1; }
      var client := Client(fd, pid, true);
      ClientKeeps(windows[..], cs, nextId, buffers, i, client);
      ActiveUpdate(cs, i, client);
      clients[i] := client;
      assert clients[..] == cs[i := client];
      clientCount := clientCount + 1;
      return i;
    }

    /** Everything the client owns is destroyed, and nothing else. */
    method DestroyOwned(c: nat)
      requires Valid()
      modifies this`windowCount, this`buffers, windows
      ensures Valid()
      ensures forall k :: 0 <= k < MAX_WINDOWS ==>
        windows[k] == old(if windows[k].visible && windows[k].clientIdx == c then windows[k].(visible := false) else windows[k])
    {
      hide VisibleCount, ActiveCount;
      ghost var ws := windows[..];
      Sizes(ws, clients[..], nextId, buffers);
      for i := 0 to MAX_WINDOWS
        invariant Valid()
        invariant forall k :: 0 <= k < i ==>
          windows[k] == if ws[k].visible && ws[k].clientIdx == c then ws[k].(visible := false) else ws[k]
        invariant forall k :: i <= k < MAX_WINDOWS ==> windows[k] == ws[k]
      {
        if windows[i].visible && windows[i].clientIdx == c {
          OtherIds(windows[..], clients[..], nextId, buffers, i);
          hide Consistent;
          WindowDestroy(windows[i].id);
        }
      }
    }

    /** The client's windows and its slot are freed together. */
    method ClientDisconnect(c: nat)
      requires Valid() && c < MAX_CLIENTS && clients[c].active
      modifies this`windowCount, this`buffers, this`clientCount, windows, clients
      ensures Valid() && clientCount == old(clientCount) - 1
      ensures clients[..] == old(clients[..])[c := old(clients[c]).(active := false, fd := -1)]
      ensures forall k :: 0 <= k < MAX_WINDOWS ==>
        windows[k] == old(if windows[k].visible && windows[k].clientIdx == c then windows[k].(visible := false) else windows[k])
    {
      hide Consistent, VisibleCount, ActiveCount;
      ghost var cs := clients[..];
      Sizes(windows[..], cs, nextId, buffers);
      DestroyOwned(c);
      Sizes(windows[..], cs, nextId, buffers);
      var client := clients[c].(active := false, fd := -1);
      ClientKeeps(windows[..], cs, nextId, buffers, c, client);
      ActiveUpdate(cs, c, client);
      clients[c] := client;
      assert clients[..] == cs[c := client];
      clientCount := clientCount - 1;
    }

    ghost function Snapshot(): Tables
      reads this, windows, clients
    {
      Tables(windows[..], clients[..], nextId, windowCount, clientCount)
    }

    /** A new window goes to a free slot and belongs to the client that asked for it. */
    method HandleCreate(client: nat, w: int, h: int, shmOk: bool)
      requires Valid() && nextId < ID_LIMIT && client < MAX_CLIENTS && clients[client].active
      modifies this, windows
      ensures Valid() && old(nextId) <= nextId <= old(nextId) + 1 && Created(old(Snapshot()), client, shmOk, Snapshot())
    {
      hide Consistent, VisibleCount, ActiveCount;
      Sizes(windows[..], clients[..], nextId, buffers);
      var id, slot := WindowCreate(client, clients[client].pid, w, h, shmOk);
      Sizes(windows[..], clients[..], nextId, buffers);
      assert forall k :: 0 <= k < MAX_WINDOWS ==> windows[k] == windows[..][k];
      ghost var was := old(windows[..]);
      assert forall k :: 0 <= k < MAX_WINDOWS ==> was[k] == old(windows[k]);
    }

    method HandleAccept(fd: int, pid: int)
      requires Valid()
      modifies this`clientCount, clients
      ensures Valid() && Accepted(old(Snapshot()), fd, pid, Snapshot())
    {
      hide Consistent, VisibleCount, ActiveCount;
      Sizes(windows[..], clients[..], nextId, buffers);
      var _ := SocketAccept(fd, pid);
      Sizes(windows[..], clients[..], nextId, buffers);
      assert forall k :: 0 <= k < MAX_CLIENTS ==> clients[k] == clients[..][k];
    }

    /** One event of the main loop; only active clients are polled. */
    method Handle(e: Event)
      requires Valid() && nextId < ID_LIMIT
      modifies this, windows, clients
      ensures Valid() && nextId <= old(nextId) + 1 && Stepped(old(Snapshot()), e, Snapshot())
    {
      hide Consistent, VisibleCount, ActiveCount, Accepted;
      Sizes(windows[..], clients[..], nextId, buffers);
      if e.Accept? {
        HandleAccept(e.fd, e.pid);
        Sizes(windows[..], clients[..], nextId, buffers);
        return;
      }
      if e.client >= MAX_CLIENTS || !clients[e.client].active { return; }
      match e {
        case Create(client, w, h, shmOk) => HandleCreate(client, w, h, shmOk);
        case Commit(_, id) => WindowMarkCommitted(id);
        case Move(_, id, x, y) => WindowMove(id, x, y);
        case Destroy(_, id) => WindowDestroy(id);
        case Bad(client) => ClientDisconnect(client);
      }
      Sizes(windows[..], clients[..], nextId, buffers);
    }
  }

  // ----- what each event does

  /** The tables at one moment. */
  datatype Tables = Tables(windows: seq<Window>, clients: seq<Client>, nextId: nat, windowCount: int, clientCount: int)

  predicate Sized(t: Tables) { |t.windows| == MAX_WINDOWS && |t.clients| == MAX_CLIENTS }

  /** Event `e` is a message from a client that is being polled. */
  predicate Polled(t: Tables, e: Event) {
    !e.Accept? && e.client < |t.clients| && t.clients[e.client].active
  }

  /** What a message other than a request for a window does to one window, of whichever client it is. */
  function Touched(e: Event, w: Window): Window {
    if !w.visible then w
    else match e
      case Commit(_, id) => if w.id == id then w.(pendingCommit := true) else w
      case Move(_, id, x, y) => if w.id == id then w.(x := x, y := y) else w
      case Destroy(_, id) => if w.id == id then w.(visible := false) else w
      case Bad(client) => if w.clientIdx == client then w.(visible := false) else w
      case _ => w
  }

  predicate HasFreeWindow(t: Tables) { exists k :: 0 <= k < |t.windows| && !t.windows[k].visible }

  predicate HasFreeClient(t: Tables) { exists k :: 0 <= k < |t.clients| && !t.clients[k].active }

  /** No visible window changes; one more is visible if there was a slot and memory, and it is the sender's. */
  ghost predicate Created(b: Tables, client: nat, shmOk: bool, a: Tables) {
    && Sized(b) && Sized(a) && a.clients == b.clients
    && (forall k :: 0 <= k < MAX_WINDOWS && b.windows[k].visible ==> a.windows[k] == b.windows[k])
    && (forall k :: 0 <= k < MAX_WINDOWS && a.windows[k].visible && !b.windows[k].visible ==>
          a.windows[k].id == b.nextId && a.windows[k].clientIdx == client && client < MAX_CLIENTS && a.windows[k].pid == b.clients[client].pid)
    && a.windowCount == b.windowCount + if shmOk && HasFreeWindow(b) then 1 else 0
  }

  /** One free client slot is taken if there is a connection and a slot; nothing else changes. */
  ghost predicate Accepted(b: Tables, fd: int, pid: int, a: Tables) {
    && Sized(b) && Sized(a) && a.windows == b.windows && a.nextId == b.nextId && a.windowCount == b.windowCount
    && (forall k :: 0 <= k < MAX_CLIENTS ==>
          a.clients[k] == b.clients[k] || (!b.clients[k].active && a.clients[k] == Client(fd, pid, true)))
    && a.clientCount == b.clientCount + if fd >= 0 && HasFreeClient(b) then 1 else 0
  }

  ghost predicate Stepped(b: Tables, e: Event, a: Tables) {
    if e.Accept? then Accepted(b, e.fd, e.pid, a)
    else if !Polled(b, e) then a == b
    else if e.Create? then Created(b, e.client, e.shmOk, a)
    else
      && Sized(b) && Sized(a) && a.nextId == b.nextId
      && (forall k :: 0 <= k < MAX_WINDOWS ==> a.windows[k] == Touched(e, b.windows[k]))
      && a.clients == (if e.Bad? then b.clients[e.client := b.clients[e.client].(active := false, fd := -1)] else b.clients)
  }

  /** The message would leave the window as it is. */
  predicate AlreadySo(e: Event, w: Window) {
    (e.Move? && w.x == e.x && w.y == e.y) || (e.Commit? && w.pendingCommit)
  }

  /** A message changes no window but the sender's if and only if no window of another client has the id, or it is so already. */
  lemma TouchesOnlyOwn(b: Tables, e: Event, a: Tables)
    requires (e.Commit? || e.Move? || e.Destroy?) && Polled(b, e) && Stepped(b, e, a)
    ensures (forall k :: 0 <= k < MAX_WINDOWS && b.windows[k].clientIdx != e.client ==> a.windows[k] == b.windows[k])
      <==> forall k :: 0 <= k < MAX_WINDOWS && b.windows[k].visible && b.windows[k].id == e.id && !AlreadySo(e, b.windows[k]) ==>
        b.windows[k].clientIdx == e.client
  {
    forall k | 0 <= k < MAX_WINDOWS
      ensures a.windows[k] != b.windows[k] <==> b.windows[k].visible && b.windows[k].id == e.id && !AlreadySo(e, b.windows[k])
    {
    }
  }

  /** A run: the tables before the first event and after each. */
  ghost predicate IsTrace(trace: seq<Tables>, events: seq<Event>) {
    && |trace| == |events| + 1
    && forall k :: 0 <= k < |events| ==> Stepped(trace[k], events[k], trace[k + 1])
  }

  /** A client that is not there, and has no window. */
  predicate Gone(t: Tables, client: nat) {
    && Sized(t) && client < MAX_CLIENTS && !t.clients[client].active
    && forall k :: 0 <= k < MAX_WINDOWS && t.windows[k].visible ==> t.windows[k].clientIdx != client
  }

  /** A hang-up takes all windows of its client off the screen and leaves those of the others. */
  lemma HangUpTouchesOwn(b: Tables, client: nat, a: Tables)
    requires Polled(b, Bad(client)) && Stepped(b, Bad(client), a)
    ensures Gone(a, client)
    ensures forall k :: 0 <= k < MAX_WINDOWS && b.windows[k].clientIdx != client ==> a.windows[k] == b.windows[k]
    ensures forall k :: 0 <= k < MAX_CLIENTS && k != client ==> a.clients[k] == b.clients[k]
  {
  }

  lemma GoneStays(b: Tables, e: Event, a: Tables, client: nat)
    requires Gone(b, client) && Stepped(b, e, a) && !e.Accept?
    ensures Gone(a, client)
  {
    if Polled(b, e) && !e.Create? {
      forall k | 0 <= k < MAX_WINDOWS && a.windows[k].visible ensures a.windows[k].clientIdx != client {
        assert b.windows[k].visible;
      }
    }
  }

  /** In every run, a client that has hung up shows no window again before a connection takes its slot. */
  lemma {:induction false} GoneUntilAccepted(trace: seq<Tables>, events: seq<Event>, i: nat, j: nat, client: nat)
    requires IsTrace(trace, events) && i < j <= |events| && events[i] == Bad(client) && Polled(trace[i], events[i])
    requires forall k :: i < k < j ==> !events[k].Accept?
    ensures Gone(trace[j], client)
    decreases j
  {
    hide Stepped, Gone;
    assert Stepped(trace[j - 1], events[j - 1], trace[j - 1 + 1]);
    if j == i + 1 {
      HangUpTouchesOwn(trace[i], client, trace[j]);
    } else {
      GoneUntilAccepted(trace, events, i, j - 1, client);
      GoneStays(trace[j - 1], events[j - 1], trace[j], client);
    }
  }

  predicate Empty(t: Tables) {
    && Sized(t) && t.nextId == 1 && t.windowCount == 0 && t.clientCount == 0
    && (forall k :: 0 <= k < MAX_WINDOWS ==> !t.windows[k].visible) && (forall k :: 0 <= k < MAX_CLIENTS ==> !t.clients[k].active)
  }

  /** Over every run, as long as ids do not reach the sign bit, the tables follow the events and stay consistent. */
  method Run(events: seq<Event>) returns (server: Server, ghost trace: seq<Tables>)
    requires |events| < ID_LIMIT - 1
    ensures server.Valid() && IsTrace(trace, events)
    ensures Empty(trace[0]) && trace[|events|] == server.Snapshot()
  {
    server := new Server();
    trace := [server.Snapshot()];
    hide Stepped, Server.Valid;
    for k := 0 to |events|
      invariant server.Valid() && fresh(server) && fresh(server.windows) && fresh(server.clients)
      invariant server.nextId <= 1 + k
      invariant |trace| == k + 1 && Empty(trace[0]) && trace[k] == server.Snapshot()
      invariant forall i :: 0 <= i < k ==> Stepped(trace[i], events[i], trace[i + 1])
    {
      server.Handle(events[k]);
      trace := trace + [server.Snapshot()];
    }
  }

  lemma {:induction false} NoneVisible(ws: seq<Window>)
    requires forall i :: 0 <= i < |ws| ==> !ws[i].visible
    ensures VisibleCount(ws) == 0
  {
    if ws != [] { NoneVisible(ws[..|ws| - 1]); }
  }

  lemma {:induction false} NoneActive(cs: seq<Client>)
    requires forall i :: 0 <= i < |cs| ==> !cs[i].active
    ensures ActiveCount(cs) == 0
  {
    if cs != [] { NoneActive(cs[..|cs| - 1]); }
  }

  lemma OtherIds(ws: seq<Window>, cs: seq<Client>, nextId: nat, buffers: set<nat>, i: nat)
    requires Consistent(ws, cs, nextId, buffers) && i < |ws| && ws[i].visible
    ensures forall k :: 0 <= k < |ws| && ws[k].visible && ws[k].id == ws[i].id ==> k == i
  {
  }

  lemma Sizes(ws: seq<Window>, cs: seq<Client>, nextId: nat, buffers: set<nat>)
    requires Consistent(ws, cs, nextId, buffers)
    ensures |ws| == MAX_WINDOWS && |cs| == MAX_CLIENTS
  {
  }
}
