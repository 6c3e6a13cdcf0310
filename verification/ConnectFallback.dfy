/**
 TCPClientSocket: connecting to the first reachable address of a list, through
 a state machine that an attempt may suspend.
 */
module ConnectFallback {
  import opened NetErrors
  import opened Options

  /** How the system answers one attempt: no socket, no local address, an answer at once, or an answer later. */
  datatype Attempt = OpenFails(error: int) | BindFails(error: int) | Immediate(rv: int) | Later(rv: int)

  function Code(a: Attempt): int {
    match a
    case OpenFails(error) => error
    case BindFails(error) => error
    case Immediate(rv) => rv
    case Later(rv) => rv
  }

  predicate Genuine(a: Attempt) {
    Code(a) != ERR_IO_PENDING && (a.OpenFails? || a.BindFails? ==> a.error != OK)
  }

  /** The attempt gets as far as the call of connect. */
  predicate Connects(a: Attempt) {
    a.Immediate? || a.Later?
  }

  /** An open socket is not opened again, and only a socket with a local address is bound to it. */
  ghost predicate Possible(attempts: seq<Attempt>, i: nat, open: bool, bound: bool) {
    && (open && i < |attempts| ==> Connects(attempts[i]))
    && (!bound ==> forall j :: 0 <= j < |attempts| ==> !attempts[j].BindFails?)
  }

  ghost predicate AllGenuine(attempts: seq<Attempt>) {
    forall i :: 0 <= i < |attempts| ==> Genuine(attempts[i])
  }

  /** None of the first k addresses connects. */
  ghost predicate AllFail(attempts: seq<Attempt>, k: nat)
    requires k <= |attempts|
  {
    forall i :: 0 <= i < k ==> Code(attempts[i]) != OK
  }

  /** The numbers of the first k addresses, in order. */
  function FirstNumbers(k: nat): (s: seq<nat>)
    ensures |s| == k && forall i :: 0 <= i < k ==> s[i] == i
  {
    if k == 0 then [] else FirstNumbers(k - 1) + [k - 1]
  }

  /** How many of attempts[i..k] answer later. */
  function Waits(attempts: seq<Attempt>, i: nat, k: nat): nat
    requires i <= k <= |attempts|
    decreases k - i
  {
    if i == k then 0 else (if attempts[i].Later? then 1 else 0) + Waits(attempts, i + 1, k)
  }

  lemma {:induction false} WaitsSplit(attempts: seq<Attempt>, i: nat, j: nat, k: nat)
    requires i <= j <= k <= |attempts|
    ensures Waits(attempts, i, k) == Waits(attempts, i, j) + Waits(attempts, j, k)
    decreases j - i
  {
    if i < j {
      WaitsSplit(attempts, i + 1, j, k);
    }
  }

  datatype ConnectState = StateConnect | StateConnectComplete | StateNone

  class TcpClientSocket {
    const size: nat
    var attempts: seq<Attempt>
    var socketValid: bool
    var bound: bool // bind_address_ is set
    /** The platform socket holds a callback to DidCompleteConnect. */
    var attemptPending: bool
    var currentAddressIndex: int
    var nextConnectState: ConnectState
    var connectCallback: Option<nat>
    /** The addresses tried in this Connect, and all runs of callbacks with their results. */
    var tried: seq<nat>
    var ran: seq<(nat, int)>

    /** An attempt that is pending has an open socket and an address. */
    ghost predicate Sound()
      reads this
    {
      attemptPending ==> socketValid && currentAddressIndex >= 0
    }

    /** An attempt on address currentAddressIndex is the latest, and all before it failed. */
    ghost predicate Reached()
      reads this
    {
      && |attempts| == size && AllGenuine(attempts) && Possible(attempts, size, false, bound)
      && 0 <= currentAddressIndex < size
      && AllFail(attempts, currentAddressIndex)
      && tried == FirstNumbers(currentAddressIndex + 1)
    }

    ghost predicate Waiting()
      reads this
    {
      && Reached() && attempts[currentAddressIndex].Later?
      && nextConnectState == StateConnectComplete && socketValid && attemptPending
    }

    ghost predicate Connected()
      reads this
    {
      && Reached() && Code(attempts[currentAddressIndex]) == OK
      && nextConnectState == StateNone && socketValid && !attemptPending
    }

    ghost predicate Exhausted()
      reads this
    {
      && Reached() && currentAddressIndex == size - 1 && AllFail(attempts, size)
      && nextConnectState == StateNone && !socketValid && !attemptPending
    }

    /** What a return of the loop with rv says about the connection. */
    ghost predicate Answers(rv: int)
      reads this
    {
      if rv == ERR_IO_PENDING then Waiting()
      else if rv == OK then Connected()
      else Exhausted() && rv == Code(attempts[size - 1])
    }

    constructor (size: nat)
      ensures this.size == size && attempts == [] && tried == [] && ran == [] && connectCallback == None
      ensures !socketValid && !bound && !attemptPending
      ensures currentAddressIndex == -1 && nextConnectState == StateNone
    {
      this.size := size;
      attempts := [];
      socketValid, bound, attemptPending := false, false, false;
      currentAddressIndex := -1;
      nextConnectState := StateNone;
      connectCallback := None;
      tried, ran := [], [];
    }

    /** opens and binds are what the system answers to opening the socket and to binding it. */
    method Bind(opens: int, binds: int) returns (rv: int)
      modifies this`socketValid, this`bound
      ensures var free := old(currentAddressIndex) < 0 && !old(bound);
              var open := old(socketValid) || opens == OK;
              && rv == (if !free then ERR_UNEXPECTED else if !open then opens else binds)
              && socketValid == (old(socketValid) || (free && opens == OK))
              && bound == (old(bound) || (free && open && binds == OK))
    {
      if currentAddressIndex >= 0 || bound {
        return ERR_UNEXPECTED;
      }
      if !socketValid {
        if opens != OK {
          return opens;
        }
        socketValid := true;
      }
      if binds != OK {
        return binds;
      }
      bound := true;
      return OK;
    }

    /** kernel says how the system will answer the attempts of this call. */
    method Connect(callback: nat, kernel: seq<Attempt>) returns (rv: int)
      requires Sound() && size > 0 && |kernel| == size && AllGenuine(kernel)
      requires (socketValid && currentAddressIndex >= 0) || Possible(kernel, 0, socketValid, bound)
      modifies this
      ensures ran == old(ran) && bound == old(bound)
      ensures old(socketValid && currentAddressIndex >= 0) ==>
                && rv == OK && attempts == old(attempts) && tried == old(tried)
                && connectCallback == old(connectCallback) && attemptPending == old(attemptPending)
                && socketValid && currentAddressIndex == old(currentAddressIndex)
                && nextConnectState == old(nextConnectState)
      ensures !old(socketValid && currentAddressIndex >= 0) ==>
                && Answers(rv) && attempts == kernel
                && Waits(attempts, 0, currentAddressIndex) == 0
                && (rv != ERR_IO_PENDING ==> !attempts[currentAddressIndex].Later?)
                && connectCallback == if rv == ERR_IO_PENDING then Some(callback) else old(connectCallback)
    {
      if socketValid && currentAddressIndex >= 0 {
        return OK;
      }
      attempts := kernel;
      tried := [];
      nextConnectState := StateConnect;
      currentAddressIndex := 0;
      rv := DoConnectLoop(OK);
      WaitsSplit(attempts, 0, currentAddressIndex, currentAddressIndex);
      if rv == ERR_IO_PENDING {
        connectCallback := Some(callback);
      }
    }

    method DoConnect() returns (rv: int)
      requires |attempts| == size && AllGenuine(attempts) && 0 <= currentAddressIndex < size
      requires Possible(attempts, currentAddressIndex, socketValid, bound) && !attemptPending
      modifies this`nextConnectState, this`socketValid, this`attemptPending, this`tried
      ensures nextConnectState == StateConnectComplete && tried == old(tried) + [currentAddressIndex]
      ensures var a := attempts[currentAddressIndex];
              && rv == (if a.Later? then ERR_IO_PENDING else Code(a))
              && socketValid == Connects(a) && attemptPending == a.Later?
    {
      var a := attempts[currentAddressIndex];
      nextConnectState := StateConnectComplete;
      tried := tried + [currentAddressIndex];
      if !socketValid {
        if a.OpenFails? {
          return a.error;
        }
        socketValid := true;
        if bound && a.BindFails? {
          socketValid := false;
          return a.error;
        }
      }
      if a.Later? {
        attemptPending := true;
        return ERR_IO_PENDING;
      }
      return Code(a);
    }

    method DoDisconnect()
      modifies this`socketValid, this`attemptPending
      ensures !socketValid && !attemptPending
    {
      socketValid, attemptPending := false, false;
    }

    method DoConnectComplete(result: int) returns (rv: int)
      requires 0 <= currentAddressIndex < size && nextConnectState == StateNone
      modifies this`socketValid, this`attemptPending, this`nextConnectState, this`currentAddressIndex
      ensures result == OK ==>
                && rv == OK && nextConnectState == StateNone && currentAddressIndex == old(currentAddressIndex)
                && socketValid == old(socketValid) && attemptPending == old(attemptPending)
      ensures result != OK ==> !socketValid && !attemptPending
      ensures result != OK && old(currentAddressIndex) + 1 < size ==>
                rv == OK && nextConnectState == StateConnect && currentAddressIndex == old(currentAddressIndex) + 1
      ensures result != OK && old(currentAddressIndex) + 1 == size ==>
                rv == result && nextConnectState == StateNone && currentAddressIndex == old(currentAddressIndex)
    {
      if result == OK {
        return OK;
      }
      DoDisconnect();
      if currentAddressIndex + 1 < size {
        nextConnectState := StateConnect;
        currentAddressIndex := currentAddressIndex + 1;
        return OK;
      }
      return result;
    }

    /** The loop is about to try address currentAddressIndex. */
    ghost predicate AboutToTry(rv: int)
      reads this
    {
      && |attempts| == size && AllGenuine(attempts) && 0 <= currentAddressIndex < size
      && AllFail(attempts, currentAddressIndex) && tried == FirstNumbers(currentAddressIndex)
      && nextConnectState == StateConnect && rv == OK && !attemptPending
      && Possible(attempts, currentAddressIndex, socketValid, bound)
    }

    /** The loop is about to judge the answer of address currentAddressIndex. */
    ghost predicate AboutToJudge(rv: int)
      reads this
    {
      && Reached() && nextConnectState == StateConnectComplete && !attemptPending
      && rv == Code(attempts[currentAddressIndex])
      && (rv == OK ==> socketValid)
    }

    /**
     Runs until an attempt connects, has to wait, or the addresses are used up.
     No address after the one at which it starts and before the one at which
     it stops has to be waited for.
     */
    method DoConnectLoop(result: int) returns (rv: int)
      requires AboutToTry(result) || AboutToJudge(result)
      modifies this`nextConnectState, this`socketValid, this`attemptPending, this`tried, this`currentAddressIndex
      ensures Answers(rv)
      ensures var i := old(currentAddressIndex) + if old(AboutToTry(result)) then 0 else 1;
              if i <= currentAddressIndex then
                Waits(attempts, i, currentAddressIndex) == 0
                && (attempts[currentAddressIndex].Later? <==> rv == ERR_IO_PENDING)
              else rv != ERR_IO_PENDING && currentAddressIndex == i - 1
    {
      rv := result;
      ghost var from := currentAddressIndex + if AboutToTry(rv) then 0 else 1;
      var running := true;
      while running
        invariant from == old(currentAddressIndex) + if old(AboutToTry(result)) then 0 else 1
        invariant running ==> AboutToTry(rv) || AboutToJudge(rv)
        invariant !running ==> Answers(rv)
        invariant 0 <= currentAddressIndex < size && 0 <= from
        invariant from <= currentAddressIndex ==> Waits(attempts, from, currentAddressIndex) == 0
        invariant from <= currentAddressIndex ==>
                    (running && AboutToTry(rv)) || (attempts[currentAddressIndex].Later? <==> rv == ERR_IO_PENDING)
        invariant from > currentAddressIndex ==> rv != ERR_IO_PENDING && from == currentAddressIndex + 1
        invariant running && from > currentAddressIndex ==> AboutToJudge(rv)
        decreases running, size - currentAddressIndex, nextConnectState == StateConnect
      {
        var state := nextConnectState;
        nextConnectState := StateNone;
        if state == StateConnect {
          rv := DoConnect();
        } else {
          ghost var i := currentAddressIndex;
          rv := DoConnectComplete(rv);
          if from <= i < currentAddressIndex {
            WaitsSplit(attempts, from, i, i + 1);
          }
        }
        running := rv != ERR_IO_PENDING && nextConnectState != StateNone;
      }
    }

    /** The platform socket reports the answer of the pending attempt. */
    method DidCompleteConnect()
      requires Waiting() && connectCallback.Some?
      modifies this
      ensures attempts == old(attempts)
      ensures old(currentAddressIndex) <= currentAddressIndex
      ensures if Waiting() then
                && ran == old(ran) && connectCallback == old(connectCallback)
                && old(currentAddressIndex) < currentAddressIndex
                && Waits(attempts, old(currentAddressIndex) + 1, currentAddressIndex) == 0
              else
                && (Connected() || Exhausted()) && connectCallback == None
                && ran == old(ran) + [(old(connectCallback).value, Code(attempts[currentAddressIndex]))]
                && Waits(attempts, old(currentAddressIndex) + 1, currentAddressIndex + 1) == 0
    {
      var result := Code(attempts[currentAddressIndex]);
      attemptPending := false;
      ghost var i := currentAddressIndex;
      result := DoConnectLoop(result);
      if result != ERR_IO_PENDING {
        ran := ran + [(connectCallback.value, result)];
        connectCallback := None;
        if i < currentAddressIndex {
          WaitsSplit(attempts, i + 1, currentAddressIndex, currentAddressIndex + 1);
        }
      }
    }

    method Disconnect()
      modifies this`socketValid, this`bound, this`attemptPending, this`currentAddressIndex
      ensures !socketValid && !bound && !attemptPending && currentAddressIndex == -1
    {
      DoDisconnect();
      currentAddressIndex := -1;
      bound := false;
    }
  }

  // ---- Whole connections ----

  /** The address at which a connection that is not cancelled stops: the first that connects, or the last. */
  function StopsAt(attempts: seq<Attempt>, i: nat): (k: nat)
    requires i < |attempts|
    ensures i <= k < |attempts|
    ensures forall j :: i <= j < k ==> Code(attempts[j]) != OK
    ensures Code(attempts[k]) == OK || k == |attempts| - 1
    decreases |attempts| - i
  {
    if Code(attempts[i]) == OK || i + 1 == |attempts| then i else StopsAt(attempts, i + 1)
  }

  /** The result is OK exactly when some address connects, and otherwise the last address's error. */
  lemma ResultOfFallback(attempts: seq<Attempt>)
    requires attempts != []
    ensures var rv := Code(attempts[StopsAt(attempts, 0)]);
            if exists j :: 0 <= j < |attempts| && Code(attempts[j]) == OK then rv == OK
            else rv == Code(attempts[|attempts| - 1])
  {
  }

  lemma StopIsUnique(attempts: seq<Attempt>, i: nat)
    requires i < |attempts| && AllFail(attempts, i)
    ensures i <= StopsAt(attempts, 0)
    ensures Code(attempts[i]) == OK || i == |attempts| - 1 ==> i == StopsAt(attempts, 0)
  {
  }

  /** What the system answers to opening and binding a socket. */
  datatype BindAnswer = BindAnswer(opens: int, binds: int)

  /** One use of a socket: perhaps Bind, then Connect, at most patience answers of the system, Disconnect. */
  datatype Session = Session(bind: Option<BindAnswer>, callback: nat, kernel: seq<Attempt>, patience: nat)

  ghost predicate Sound(s: Session, size: nat) {
    var open := s.bind.Some? && s.bind.value.opens == OK;
    0 < size == |s.kernel| && AllGenuine(s.kernel) && Possible(s.kernel, 0, open, open && s.bind.value.binds == OK)
  }

  /** How often a session has to wait for the system. */
  function WaitsOf(s: Session): nat
    requires s.kernel != []
  {
    Waits(s.kernel, 0, StopsAt(s.kernel, 0) + 1)
  }

  function ResultOf(s: Session): int
    requires s.kernel != []
  {
    Code(s.kernel[StopsAt(s.kernel, 0)])
  }

  /** What Connect returns: the result, or that the callback is to be waited for. */
  function ReturnOf(s: Session): int
    requires s.kernel != []
  {
    if WaitsOf(s) == 0 then ResultOf(s) else ERR_IO_PENDING
  }

  /** The callback runs exactly when the connection has to wait and is not cancelled before its last answer. */
  function RunsOf(s: Session): seq<(nat, int)>
    requires s.kernel != []
  {
    if 0 < WaitsOf(s) <= s.patience then [(s.callback, ResultOf(s))] else []
  }

  ghost predicate AllSound(sessions: seq<Session>, size: nat) {
    forall i :: 0 <= i < |sessions| ==> Sound(sessions[i], size)
  }

  ghost function AllRuns(sessions: seq<Session>, size: nat): seq<(nat, int)>
    requires AllSound(sessions, size)
  {
    if sessions == [] then []
    else
      var n := |sessions| - 1;
      AllRuns(sessions[..n], size) + RunsOf(sessions[n])
  }

  /** One answer of the system to a waiting socket. */
  method Answer(socket: TcpClientSocket, s: Session) returns (pending: bool)
    requires Sound(s, socket.size) && socket.attempts == s.kernel
    requires socket.Waiting() && socket.connectCallback == Some(s.callback)
    modifies socket
    ensures socket.attempts == s.kernel
    ensures var stop := StopsAt(s.kernel, 0);
            var i := old(socket.currentAddressIndex);
            && 0 <= i <= stop
            && if pending then
                 && socket.Waiting() && socket.connectCallback == Some(s.callback) && socket.ran == old(socket.ran)
                 && 0 <= socket.currentAddressIndex <= stop
                 && Waits(s.kernel, i, stop + 1) == 1 + Waits(s.kernel, socket.currentAddressIndex, stop + 1)
               else
                 && socket.tried == FirstNumbers(stop + 1)
                 && socket.ran == old(socket.ran) + [(s.callback, ResultOf(s))]
                 && Waits(s.kernel, i, stop + 1) == 1
  {
    ghost var i := socket.currentAddressIndex;
    StopIsUnique(s.kernel, i);
    socket.DidCompleteConnect();
    pending := socket.attemptPending;
    StopIsUnique(s.kernel, socket.currentAddressIndex);
    if pending {
      WaitsSplit(s.kernel, i + 1, socket.currentAddressIndex, StopsAt(s.kernel, 0) + 1);
    }
  }

  /** At most patience answers of the system to a waiting socket. */
  method Await(socket: TcpClientSocket, s: Session, patience: nat)
    requires Sound(s, socket.size) && socket.attempts == s.kernel
    requires socket.Waiting() && socket.connectCallback == Some(s.callback)
    modifies socket
    ensures var stop := StopsAt(s.kernel, 0);
            var i := old(socket.currentAddressIndex);
            && 0 <= i <= stop
            && if Waits(s.kernel, i, stop + 1) <= patience then
                 && socket.tried == FirstNumbers(stop + 1)
                 && socket.ran == old(socket.ran) + [(s.callback, ResultOf(s))]
               else
                 && socket.ran == old(socket.ran)
                 && 0 <= socket.currentAddressIndex <= stop
                 && socket.tried == FirstNumbers(socket.currentAddressIndex + 1)
    decreases patience
  {
    StopIsUnique(s.kernel, socket.currentAddressIndex);
    if patience > 0 {
      var pending := Answer(socket, s);
      if pending {
        Await(socket, s, patience - 1);
      }
    }
  }

  ghost predicate Unused(socket: TcpClientSocket)
    reads socket
  {
    !socket.socketValid && !socket.bound && !socket.attemptPending && socket.currentAddressIndex == -1
  }

  method RunSession(socket: TcpClientSocket, s: Session) returns (rv: int)
    requires Unused(socket) && Sound(s, socket.size)
    modifies socket
    ensures Unused(socket)
    ensures rv == ReturnOf(s)
    ensures socket.ran == old(socket.ran) + RunsOf(s)
    ensures WaitsOf(s) <= s.patience ==> socket.tried == FirstNumbers(StopsAt(s.kernel, 0) + 1)
    ensures exists k: nat :: 0 < k <= StopsAt(s.kernel, 0) + 1 && socket.tried == FirstNumbers(k)
  {
    if s.bind.Some? {
      var _ := socket.Bind(s.bind.value.opens, s.bind.value.binds);
    }
    rv := socket.Connect(s.callback, s.kernel);
    StopIsUnique(s.kernel, socket.currentAddressIndex);
    WaitsSplit(s.kernel, 0, socket.currentAddressIndex, StopsAt(s.kernel, 0) + 1);
    if rv == ERR_IO_PENDING {
      Await(socket, s, s.patience);
    }
    socket.Disconnect();
  }

  /** Any number of sessions, one after another on the same socket. */
  method RunSessions(size: nat, sessions: seq<Session>) returns (ran: seq<(nat, int)>, returned: seq<int>)
    requires AllSound(sessions, size)
    ensures |returned| == |sessions|
    ensures forall i :: 0 <= i < |sessions| ==>
              returned[i] == ReturnOf(sessions[i])
    ensures ran == AllRuns(sessions, size)
  {
    var socket := new TcpClientSocket(size);
    ran, returned := [], [];
    for n := 0 to |sessions|
      invariant Unused(socket) && socket.size == size
      invariant |returned| == n && ran == AllRuns(sessions[..n], size) == socket.ran
      invariant forall i :: 0 <= i < n ==>
                  returned[i] == ReturnOf(sessions[i])
    {
      var rv := RunSession(socket, sessions[n]);
      returned := returned + [rv];
      ran := socket.ran;
      assert sessions[..n + 1][..n] == sessions[..n];
    }
    assert sessions[..|sessions|] == sessions;
  }
}
