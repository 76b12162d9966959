/**
  Combat submarines, the missions they carry out, and the links that tell who else is on one.
  Each submarine lists its peers itself, so every link is held at both ends.
 */
module Fleet {
  import opened Bytes

  datatype Mission = Mission(description: string, commander: string, personnel: int)

  datatype Message<T> = Message(content: string, sender: T)

  /** What one submarine holds; `T` is how submarines are referred to. */
  datatype Record<T> = Record(
    busy: bool, mission: Option<Mission>, history: seq<Mission>, links: seq<T>, inbox: seq<Message<T>>)

  type World<T> = map<T, Record<T>>

  datatype Op<T> = Assign(sub: T, mission: Mission) | End(sub: T) | Link(sub: T, other: T)
                 | Send(sub: T, other: T, content: string)

  /** The list with every occurrence of `x` erased, the rest in order. */
  ghost function Without<T>(s: seq<T>, x: T): (r: seq<T>) {
    if s == [] then []
    else Without(s[..|s| - 1], x) + if s[|s| - 1] == x then [] else [s[|s| - 1]]
  }

  predicate Acceptable(m: Mission) {
    m.description != "" && m.commander != "" && m.personnel >= 0
  }

  /** Whether the call is made, on submarines of the fleet, and returns true. */
  ghost predicate Succeeds<T>(w: World<T>, op: Op<T>)
  {
    && op.sub in w
    && match op
       case Assign(s, m) => !w[s].busy && Acceptable(m)
       case End(s) => w[s].busy
       case Link(s, o) => o in w && o != s && o !in w[s].links
       case Send(s, o, _) => o in w && o in w[s].links
  }

  function Archive<T>(r: Record<T>): Record<T> {
    Record(false, None, if r.mission.Some? then r.history + [r.mission.value] else r.history, [], r.inbox)
  }

  ghost function Do<T>(w: World<T>, op: Op<T>): (w': World<T>)
    ensures w'.Keys == w.Keys
  {
    if !Succeeds(w, op) then w
    else
      match op
      case Assign(s, m) => w[s := w[s].(busy := true, mission := Some(m))]
      case End(s) =>
        map t | t in w :: if t == s then Archive(w[t]) else w[t].(links := Without(w[t].links, s))
      case Link(s, o) =>
        w[s := w[s].(links := w[s].links + [o])][o := w[o].(links := w[o].links + [s])]
      case Send(s, o, c) => w[o := w[o].(inbox := w[o].inbox + [Message(c, s)])]
  }

  ghost function Run<T>(w: World<T>, ops: seq<Op<T>>): (w': World<T>)
    ensures w'.Keys == w.Keys
  {
    if ops == [] then w else Do(Run(w, ops[..|ops| - 1]), ops[|ops| - 1])
  }

  // ---------------------------------------------------------------- the invariant

  ghost predicate NoDup<T>(s: seq<T>) {
    forall i, j :: 0 <= i < j < |s| ==> s[i] != s[j]
  }

  ghost predicate Linked<T>(w: World<T>, a: T, b: T) {
    a in w && b in w[a].links
  }

  /** Links are mutual, join two different submarines of the fleet, and are listed once. */
  ghost predicate Valid<T>(w: World<T>) {
    && (forall a | a in w :: forall b | b in w[a].links :: a != b && Linked(w, b, a))
    && (forall a | a in w :: NoDup(w[a].links) && (w[a].busy <==> w[a].mission.Some?))
  }

  // ---------------------------------------------------------------- erasing

  lemma {:induction false} WithoutMembers<T>(s: seq<T>, x: T)
    ensures forall y :: y in Without(s, x) <==> y in s && y != x
  {
    if s != [] {
      WithoutMembers(s[..|s| - 1], x);
      assert s == s[..|s| - 1] + [s[|s| - 1]];
    }
  }

  lemma {:induction false} WithoutKeepsNoDup<T>(s: seq<T>, x: T)
    requires NoDup(s)
    ensures NoDup(Without(s, x))
  {
    if s != [] {
      var front := s[..|s| - 1];
      WithoutKeepsNoDup(front, x);
      WithoutMembers(front, x);
      assert s[|s| - 1] !in front;
    }
  }

  /** What stays, stays in order. */
  lemma {:induction false} WithoutTakesOut<T>(a: seq<T>, x: T, b: seq<T>)
    requires x !in a && x !in b
    ensures Without(a + [x] + b, x) == a + b
    decreases |b|
  {
    if b == [] {
      assert (a + [x] + b)[..|a|] == a;
      WithoutAbsent(a, x);
      assert a + b == a;
    } else {
      var n := |b| - 1;
      assert (a + [x] + b)[..|a| + 1 + n] == a + [x] + b[..n];
      WithoutTakesOut(a, x, b[..n]);
      assert a + b[..n] + [b[n]] == a + b;
    }
  }

  lemma {:induction false} WithoutSnoc<T>(s: seq<T>, i: nat, x: T)
    requires i < |s|
    ensures Without(s[..i + 1], x) == Without(s[..i], x) + if s[i] == x then [] else [s[i]]
  {
    assert s[..i + 1][..i] == s[..i];
  }

  lemma {:induction false} WithoutAbsent<T>(s: seq<T>, x: T)
    requires x !in s
    ensures Without(s, x) == s
  {
    if s != [] {
      WithoutAbsent(s[..|s| - 1], x);
    }
  }

  // ---------------------------------------------------------------- one call

  /** A mission's end removes the links at that submarine, from both ends, and no other. */
  lemma {:induction false} EndUnlinks<T>(w: World<T>, s: T, a: T, b: T)
    requires s in w && w[s].busy
    ensures Linked(Do(w, End(s)), a, b) <==> Linked(w, a, b) && a != s && b != s
  {
    if a in w && a != s {
      WithoutMembers(w[a].links, s);
    }
  }

  lemma {:induction false} EndKeepsValid<T>(w: World<T>, s: T)
    requires Valid(w) && s in w && w[s].busy
    ensures Valid(Do(w, End(s)))
  {
    var w' := Do(w, End(s));
    forall a | a in w
      ensures NoDup(w'[a].links) && (w'[a].busy <==> w'[a].mission.Some?)
    {
      WithoutKeepsNoDup(w[a].links, s);
    }
    hide Do, NoDup;
    forall a, b | a in w' && b in w'[a].links ensures a != b && Linked(w', b, a) {
      EndUnlinks(w, s, a, b);
      EndUnlinks(w, s, b, a);
    }
  }

  lemma {:induction false} LinkJoins<T>(w: World<T>, s: T, o: T, a: T, b: T)
    requires Succeeds(w, Link(s, o))
    ensures Linked(Do(w, Link(s, o)), a, b) <==> Linked(w, a, b) || Joins(Link(s, o), a, b)
  {
  }

  /** Each comes last in the other's list, and nothing else in either record changes. */
  lemma {:induction false} LinkAppends<T>(w: World<T>, s: T, o: T)
    requires Succeeds(w, Link(s, o))
    ensures var w' := Do(w, Link(s, o));
            && w'[s] == w[s].(links := w[s].links + [o])
            && w'[o] == w[o].(links := w[o].links + [s])
            && forall t | t in w && t != s && t != o :: w'[t] == w[t]
  {
  }

  lemma {:induction false} LinkKeepsValid<T>(w: World<T>, s: T, o: T)
    requires Valid(w) && Succeeds(w, Link(s, o))
    ensures Valid(Do(w, Link(s, o)))
  {
    var w' := Do(w, Link(s, o));
    assert !Linked(w, s, o) && !Linked(w, o, s);
    forall a | a in w ensures NoDup(w'[a].links) && (w'[a].busy <==> w'[a].mission.Some?) {
      assert a == s ==> w'[a].links == w[a].links + [o];
      assert a == o ==> w'[a].links == w[a].links + [s];
    }
    hide Do, NoDup;
    forall a, b | a in w' && b in w'[a].links ensures a != b && Linked(w', b, a) {
      LinkJoins(w, s, o, a, b);
      LinkJoins(w, s, o, b, a);
    }
  }

  /** Every call keeps the links mutual, irreflexive and unrepeated, and a mission with every assignment. */
  lemma {:induction false} DoKeepsValid<T>(w: World<T>, op: Op<T>)
    requires Valid(w)
    ensures Valid(Do(w, op))
  {
    hide NoDup, Without;
    var w' := Do(w, op);
    if Succeeds(w, op) {
      match op
      case Assign(s, m) =>
        assert forall a, b :: Linked(w', a, b) <==> Linked(w, a, b);
      case End(s) => EndKeepsValid(w, s);
      case Link(s, o) => LinkKeepsValid(w, s, o);
      case Send(_, _, _) =>
        assert forall a, b :: Linked(w', a, b) <==> Linked(w, a, b);
    }
  }

  lemma {:induction false} RunKeepsValid<T>(w: World<T>, ops: seq<Op<T>>)
    requires Valid(w)
    ensures Valid(Run(w, ops))
  {
    hide Valid, Do;
    if ops != [] {
      RunKeepsValid(w, ops[..|ops| - 1]);
      DoKeepsValid(Run(w, ops[..|ops| - 1]), ops[|ops| - 1]);
    }
  }

  // ---------------------------------------------------------------- what the links mean

  ghost predicate Joins<T>(op: Op<T>, a: T, b: T) {
    op.Link? && ((op.sub == a && op.other == b) || (op.sub == b && op.other == a))
  }

  ghost predicate Parts<T>(w: World<T>, op: Op<T>, a: T, b: T)
  {
    op.End? && (op.sub == a || op.sub == b) && Succeeds(w, op)
  }

  /** Call `k` asked to join the two, and neither ended a mission after it. */
  ghost predicate JoinedSince<T>(w: World<T>, ops: seq<Op<T>>, k: nat, a: T, b: T)
  {
    && k < |ops| && Joins(ops[k], a, b)
    && forall j :: k < j < |ops| ==> !Parts(Run(w, ops[..j]), ops[j], a, b)
  }

  /** How one call changes whether two submarines are linked. */
  lemma {:induction false} LinkedAfter<T>(w: World<T>, op: Op<T>, a: T, b: T)
    requires Valid(w) && a in w && b in w && a != b
    ensures Linked(Do(w, op), a, b) <==> (Linked(w, a, b) || Joins(op, a, b)) && !Parts(w, op, a, b)
  {
    hide NoDup, Without;
    if Succeeds(w, op) {
      match op
      case Assign(s, m) =>
      case End(s) => EndUnlinks(w, s, a, b);
      case Link(s, o) => LinkJoins(w, s, o, a, b);
      case Send(_, _, _) =>
    } else if Joins(op, a, b) {
      assert Linked(w, op.sub, op.other);
    }
  }

  lemma {:induction false} JoinedLater<T>(w: World<T>, ops: seq<Op<T>>, k: nat, a: T, b: T)
    requires ops != []
    requires k < |ops| - 1
    ensures JoinedSince(w, ops, k, a, b) <==>
            && JoinedSince(w, ops[..|ops| - 1], k, a, b)
            && !Parts(Run(w, ops[..|ops| - 1]), ops[|ops| - 1], a, b)
  {
    hide Run, Parts;
    var front := ops[..|ops| - 1];
    assert forall j :: 0 <= j <= |front| ==> front[..j] == ops[..j];
    if JoinedSince(w, ops, k, a, b) {
      forall j | k < j < |front| ensures !Parts(Run(w, front[..j]), front[j], a, b) {
        assert !Parts(Run(w, ops[..j]), ops[j], a, b);
      }
    }
    if JoinedSince(w, front, k, a, b) && !Parts(Run(w, front), ops[|ops| - 1], a, b) {
      forall j | k < j < |ops| ensures !Parts(Run(w, ops[..j]), ops[j], a, b) {
        if j < |front| {
          assert !Parts(Run(w, front[..j]), front[j], a, b);
        }
      }
    }
  }

  /**
    In a fleet that started without links, two submarines are linked exactly when some call
    asked to join them and neither has since ended a mission, whatever else happened.
   */
  lemma {:induction false} LinkedIffJoinedSince<T>(w: World<T>, ops: seq<Op<T>>, a: T, b: T)
    requires Valid(w) && forall s :: s in w ==> w[s].links == []
    requires a in w && b in w && a != b
    ensures Linked(Run(w, ops), a, b) <==> exists k: nat :: JoinedSince(w, ops, k, a, b)
    decreases |ops|
  {
    hide Valid, Do, Parts, Joins;
    if ops != [] {
      var n := |ops| - 1;
      var front, op := ops[..n], ops[n];
      var v := Run(w, front);
      LinkedIffJoinedSince(w, front, a, b);
      RunKeepsValid(w, front);
      LinkedAfter(v, op, a, b);
      JoiningDoesNotPart(v, op, a, b);
      hide Linked, Run;
      forall k: nat | k < n
        ensures JoinedSince(w, ops, k, a, b) <==> JoinedSince(w, front, k, a, b) && !Parts(v, op, a, b)
      {
        JoinedLater(w, ops, k, a, b);
      }
      assert JoinedSince(w, ops, n, a, b) <==> Joins(op, a, b);
      if k: nat :| JoinedSince(w, front, k, a, b) && !Parts(v, op, a, b) {
        assert JoinedSince(w, ops, k, a, b);
      }
      if k: nat :| JoinedSince(w, ops, k, a, b) {
        assert k == n || JoinedSince(w, front, k, a, b);
      }
    }
  }

  lemma {:induction false} JoiningDoesNotPart<T>(w: World<T>, op: Op<T>, a: T, b: T)
    ensures Joins(op, a, b) ==> !Parts(w, op, a, b)
  {
  }

  // ---------------------------------------------------------------- missions and messages

  /** The missions successfully given to `s` during the run, in order. */
  ghost function Given<T>(w: World<T>, ops: seq<Op<T>>, s: T): seq<Mission>
  {
    if ops == [] then []
    else
      var front, op := ops[..|ops| - 1], ops[|ops| - 1];
      Given(w, front, s)
      + if op.Assign? && op.sub == s && Succeeds(Run(w, front), op) then [op.mission] else []
  }

  function AllMissions<T>(r: Record<T>): seq<Mission> {
    r.history + if r.mission.Some? then [r.mission.value] else []
  }

  lemma {:induction false} MissionsAfter<T>(w: World<T>, op: Op<T>, s: T)
    requires Valid(w) && s in w
    ensures AllMissions(Do(w, op)[s])
            == AllMissions(w[s]) + if op.Assign? && op.sub == s && Succeeds(w, op) then [op.mission] else []
  {
    hide NoDup, Without;
  }

  /** No mission is lost or repeated: the past ones and the current one are those given, in order. */
  lemma {:induction false} MissionsAreKept<T>(w: World<T>, ops: seq<Op<T>>, s: T)
    requires Valid(w) && s in w
    ensures AllMissions(Run(w, ops)[s]) == AllMissions(w[s]) + Given(w, ops, s)
    decreases |ops|
  {
    hide Valid, Do, Succeeds, AllMissions;
    if ops != [] {
      var front := ops[..|ops| - 1];
      MissionsAreKept(w, front, s);
      RunKeepsValid(w, front);
      MissionsAfter(Run(w, front), ops[|ops| - 1], s);
    }
  }

  /** Ending a mission frees the submarine, files the mission and drops the links; nobody else's mission is touched. */
  lemma {:induction false} EndFiles<T>(w: World<T>, s: T)
    requires Valid(w) && s in w && w[s].busy
    ensures var r := Do(w, End(s))[s];
            && !r.busy && r.mission == None && r.links == [] && r.inbox == w[s].inbox
            && w[s].mission.Some? && r.history == w[s].history + [w[s].mission.value]
    ensures forall t | t in w && t != s ::
              var r := Do(w, End(s))[t];
              r.busy == w[t].busy && r.mission == w[t].mission && r.history == w[t].history && r.inbox == w[t].inbox
  {
    hide NoDup, Without;
  }

  /** The calls alone tell which mission a submarine that began without one is on. */
  ghost function OnMission<T>(ops: seq<Op<T>>, s: T): Option<Mission> {
    if ops == [] then None
    else
      var before := OnMission(ops[..|ops| - 1], s);
      match ops[|ops| - 1]
      case Assign(t, m) =>
        if t == s && before == None && m.description != "" && m.commander != "" && m.personnel >= 0
        then Some(m) else before
      case End(t) => if t == s then None else before
      case _ => before
  }

  /** The missions it was on when one of the calls was to end its mission, in order. */
  ghost function Ended<T>(ops: seq<Op<T>>, s: T): seq<Mission> {
    if ops == [] then []
    else
      var front := ops[..|ops| - 1];
      Ended(front, s)
      + if ops[|ops| - 1] == End(s) && OnMission(front, s).Some? then [OnMission(front, s).value] else []
  }

  lemma {:induction false} MissionStep<T>(w: World<T>, op: Op<T>, s: T)
    requires Valid(w) && s in w
    ensures var r := Do(w, op)[s];
            var given := op.Assign? && op.sub == s && w[s].mission == None
                         && op.mission.description != "" && op.mission.commander != "" && op.mission.personnel >= 0;
            && r.mission == (if op == End(s) then None else if given then Some(op.mission) else w[s].mission)
            && r.history == w[s].history
               + (if op == End(s) && w[s].mission.Some? then [w[s].mission.value] else [])
  {
    hide NoDup, Without;
    assert w[s].busy <==> w[s].mission.Some?;
    if op == End(s) && w[s].busy {
      EndFiles(w, s);
    }
  }

  /** Over any calls: the current mission, whether there is one, and the history are what the calls alone tell. */
  lemma {:induction false} MissionsFollowCalls<T>(w: World<T>, ops: seq<Op<T>>, s: T)
    requires Valid(w) && s in w && !w[s].busy
    ensures var r := Run(w, ops)[s];
            && r.mission == OnMission(ops, s) && (r.busy <==> OnMission(ops, s).Some?)
            && r.history == w[s].history + Ended(ops, s)
    decreases |ops|
  {
    hide Do, NoDup;
    if ops != [] {
      var front, op := ops[..|ops| - 1], ops[|ops| - 1];
      MissionsFollowCalls(w, front, s);
      RunKeepsValid(w, front);
      MissionStep(Run(w, front), op, s);
      RunKeepsValid(w, ops);
    }
  }

  /** Call `k` assigned it an acceptable mission, and no call since was to end it. */
  ghost predicate AssignedSince<T>(ops: seq<Op<T>>, k: nat, s: T)
    requires k < |ops|
  {
    && ops[k].Assign? && ops[k].sub == s
    && ops[k].mission.description != "" && ops[k].mission.commander != "" && ops[k].mission.personnel >= 0
    && forall j :: k < j < |ops| ==> ops[j] != End(s)
  }

  lemma {:induction false} OnMissionIff<T>(ops: seq<Op<T>>, s: T)
    ensures OnMission(ops, s).Some? <==> exists k: nat :: k < |ops| && AssignedSince(ops, k, s)
    decreases |ops|
  {
    if ops != [] {
      var n := |ops| - 1;
      var front := ops[..n];
      OnMissionIff(front, s);
      forall k: nat | k < n
        ensures AssignedSince(ops, k, s) <==> AssignedSince(front, k, s) && ops[n] != End(s)
      {
        AssignedBefore(ops, k, s);
      }
      if k: nat :| k < n && AssignedSince(front, k, s) {
        assert ops[n] != End(s) ==> AssignedSince(ops, k, s);
      }
      if k: nat :| k < |ops| && AssignedSince(ops, k, s) {
        assert k == n || AssignedSince(front, k, s);
      }
      if OnMission(ops, s).Some? && OnMission(front, s) == None {
        assert AssignedSince(ops, n, s);
      }
    }
  }

  lemma {:induction false} AssignedBefore<T>(ops: seq<Op<T>>, k: nat, s: T)
    requires k < |ops| - 1
    ensures var n := |ops| - 1;
            AssignedSince(ops, k, s) <==> AssignedSince(ops[..n], k, s) && ops[n] != End(s)
  {
    var n := |ops| - 1;
    assert forall j :: 0 <= j < n ==> ops[..n][j] == ops[j];
  }

  /** It is on a mission exactly when it was assigned an acceptable one and was not told to end since. */
  lemma {:induction false} BusyIffAssignedSince<T>(w: World<T>, ops: seq<Op<T>>, s: T)
    requires Valid(w) && s in w && !w[s].busy
    ensures Run(w, ops)[s].busy <==> exists k: nat :: k < |ops| && AssignedSince(ops, k, s)
  {
    hide Valid, AssignedSince, OnMission, Run;
    MissionsFollowCalls(w, ops, s);
    OnMissionIff(ops, s);
  }

  /** The messages sent to `s` by a submarine that was joined to it when it sent them. */
  ghost function SentWhileJoined<T>(w: World<T>, ops: seq<Op<T>>, s: T): seq<Message<T>>
  {
    if ops == [] then []
    else
      var front, op := ops[..|ops| - 1], ops[|ops| - 1];
      SentWhileJoined(w, front, s)
      + if op.Send? && op.other == s && op.sub in w && op.sub != s
           && exists k: nat :: JoinedSince(w, front, k, op.sub, s)
        then [Message(op.content, op.sub)] else []
  }

  lemma {:induction false} InboxAfter<T>(w: World<T>, op: Op<T>, s: T)
    requires Valid(w) && s in w
    ensures Do(w, op)[s].inbox
            == w[s].inbox + if op.Send? && op.other == s && op.sub != s && Linked(w, op.sub, s)
                            then [Message(op.content, op.sub)] else []
  {
    hide NoDup, Without;
    assert !Linked(w, s, s);
  }

  /** A message arrives exactly when its sender and recipient are joined; those that arrive stay, in order. */
  lemma {:induction false} DeliveredIffJoined<T>(w: World<T>, ops: seq<Op<T>>, s: T)
    requires Valid(w) && s in w && forall t :: t in w ==> w[t].links == []
    ensures Run(w, ops)[s].inbox == w[s].inbox + SentWhileJoined(w, ops, s)
    decreases |ops|
  {
    hide Valid, Do, JoinedSince;
    if ops != [] {
      var front, op := ops[..|ops| - 1], ops[|ops| - 1];
      DeliveredIffJoined(w, front, s);
      RunKeepsValid(w, front);
      InboxAfter(Run(w, front), op, s);
      if op.Send? && op.other == s && op.sub in w && op.sub != s {
        LinkedIffJoinedSince(w, front, op.sub, s);
      }
    }
  }

  // ---------------------------------------------------------------- links and missions

  /** Whoever is linked is on a mission. */
  ghost predicate LinkedAreBusy<T>(w: World<T>) {
    forall s | s in w && w[s].links != [] :: w[s].busy
  }

  /** A link that is made although one of the two has no mission. */
  ghost predicate IdleLink<T>(w: World<T>, op: Op<T>) {
    op.Link? && Succeeds(w, op) && !(w[op.sub].busy && w[op.other].busy)
  }

  lemma {:induction false} LinkKeepsBusyIff<T>(w: World<T>, s: T, o: T)
    requires LinkedAreBusy(w) && Succeeds(w, Link(s, o))
    ensures LinkedAreBusy(Do(w, Link(s, o))) <==> w[s].busy && w[o].busy
  {
    var w' := Do(w, Link(s, o));
    assert w'[s].links == w[s].links + [o] && w'[o].links == w[o].links + [s];
    assert w'[s].busy == w[s].busy && w'[o].busy == w[o].busy;
    assert forall t | t in w && t != s && t != o :: w'[t] == w[t];
  }

  lemma {:induction false} EndKeepsBusy<T>(w: World<T>, s: T)
    requires LinkedAreBusy(w) && s in w && w[s].busy
    ensures LinkedAreBusy(Do(w, End(s)))
  {
    var w' := Do(w, End(s));
    forall t | t in w && w'[t].links != [] ensures w'[t].busy {
      if t != s && w[t].links == [] {
        WithoutNothing(w[t].links, s);
      }
    }
  }

  lemma {:induction false} WithoutNothing<T>(s: seq<T>, x: T)
    requires s == []
    ensures Without(s, x) == []
  {
  }

  /** One call breaks it exactly when it is a link of an idle submarine. */
  lemma {:induction false} LinkedStayBusyIff<T>(w: World<T>, op: Op<T>)
    requires LinkedAreBusy(w)
    ensures LinkedAreBusy(Do(w, op)) <==> !IdleLink(w, op)
  {
    if Succeeds(w, op) {
      match op
      case Assign(_, _) =>
      case End(s) => EndKeepsBusy(w, s);
      case Link(s, o) => LinkKeepsBusyIff(w, s, o);
      case Send(_, _, _) =>
    }
  }

  /**
    All through a run whoever is linked is on a mission exactly when no call links a
    submarine that has none. The code does not ask, so it is up to its caller.
   */
  lemma {:induction false} AlwaysBusyIff<T>(w: World<T>, ops: seq<Op<T>>)
    requires LinkedAreBusy(w)
    ensures (forall n :: 0 <= n <= |ops| ==> LinkedAreBusy(After(w, ops, n)))
            <==> (forall n :: 0 <= n < |ops| ==> !IdleLink(After(w, ops, n), ops[n]))
    decreases |ops|
  {
    hide LinkedAreBusy, IdleLink, Do, Run, After;
    if ops == [] {
      AfterNothing(w);
    } else {
      var m := |ops| - 1;
      var front := ops[..m];
      AlwaysBusyIff(w, front);
      AfterFront(w, ops);
      if LinkedAreBusy(After(w, ops, m)) {
        LinkedStayBusyIff(After(w, ops, m), ops[m]);
      }
      assert (forall n :: 0 <= n < m ==> !IdleLink(After(w, front, n), front[n]))
             <==> (forall n :: 0 <= n < m ==> !IdleLink(After(w, ops, n), ops[n]));
    }
  }

  /** The fleet after the first `n` calls. */
  ghost function After<T>(w: World<T>, ops: seq<Op<T>>, n: nat): World<T>
    requires n <= |ops|
  {
    Run(w, ops[..n])
  }

  lemma {:induction false} AfterNothing<T>(w: World<T>)
    ensures After(w, [], 0) == w
  {
  }

  lemma {:induction false} AfterFront<T>(w: World<T>, ops: seq<Op<T>>)
    requires ops != []
    ensures var m := |ops| - 1;
            && (forall n :: 0 <= n <= m ==> After(w, ops[..m], n) == After(w, ops, n))
            && After(w, ops, m + 1) == Do(After(w, ops, m), ops[m])
  {
    hide Do;
    var m := |ops| - 1;
    assert forall n :: 0 <= n <= m ==> ops[..m][..n] == ops[..n];
    assert ops[..m + 1] == ops;
  }

  /** Linking asks for no mission, and a submarine without one cannot leave: its own end is refused. */
  lemma {:induction false} LinkOutlivesRefusedEnd<T>(w: World<T>, a: T, b: T)
    requires Valid(w) && a in w && b in w && a != b && !w[a].busy
    ensures var w' := Do(Do(w, Link(a, b)), End(a));
            Linked(w', a, b) && Linked(w', b, a) && !w'[a].busy
  {
    var v := Do(w, Link(a, b));
    assert v[a].busy == w[a].busy;
    hide Do;
    LinkedAfter(w, Link(a, b), a, b);
    DoKeepsValid(w, Link(a, b));
    LinkedAfter(v, End(a), a, b);
    RefusedEnd(v, a);
  }

  lemma {:induction false} RefusedEnd<T>(w: World<T>, s: T)
    requires s in w && !w[s].busy
    ensures Do(w, End(s)) == w
  {
  }

  // ---------------------------------------------------------------- the objects

  /** The records of a whole fleet, by object. */
  ghost function Snapshot(fleet: set<CombatSubmarine>): World<CombatSubmarine>
    reads fleet
  {
    map s | s in fleet :: s.State()
  }

  /** The fleet while a mission ends: the first peers have dropped `s`, `s` still lists them all. */
  ghost function PartlyUnlinked<T>(w: World<T>, s: T, done: seq<T>): World<T> {
    map t | t in w :: if t in done then w[t].(links := Without(w[t].links, s)) else w[t]
  }

  /** `w` with the mission of `s` archived but its links still in place. */
  ghost function Archived<T>(w: World<T>, s: T): World<T>
    requires s in w
  {
    w[s := Archive(w[s]).(links := w[s].links)]
  }

  lemma {:induction false} ArchivedIsValid<T>(w: World<T>, s: T)
    requires Valid(w) && s in w
    ensures Valid(Archived(w, s))
  {
    hide NoDup;
    var v := Archived(w, s);
    forall a | a in v ensures v[a].links == w[a].links {
    }
  }

  lemma {:induction false} FullyUnlinked<T>(w: World<T>, v: World<T>, s: T)
    requires Valid(w) && s in w && w[s].busy && v == Archived(w, s)
    ensures Do(w, End(s)) == PartlyUnlinked(v, s, w[s].links)[s := Archive(w[s])]
  {
    hide NoDup;
    var p := PartlyUnlinked(v, s, w[s].links);
    forall t | t in w && t != s ensures Do(w, End(s))[t] == p[t] {
      if t !in w[s].links {
        assert Linked(w, t, s) ==> Linked(w, s, t);
        WithoutAbsent(w[t].links, s);
      }
    }
  }

  lemma {:induction false} EndSucceeds<T>(w: World<T>, s: T)
    requires s in w
    ensures Succeeds(w, End(s)) <==> w[s].busy
    ensures !w[s].busy ==> Do(w, End(s)) == w
  {
  }

  lemma {:induction false} NobodyUnlinkedYet<T>(w: World<T>, s: T)
    ensures PartlyUnlinked(w, s, []) == w
  {
  }

  class CombatSubmarine {
    var busy: bool
    var currentMission: Option<Mission>
    var missionHistory: seq<Mission>
    var linkedSubmarines: seq<CombatSubmarine>
    var receivedMessages: seq<Message<CombatSubmarine>>

    constructor ()
      ensures State() == Record(false, None, [], [], [])
    {
      busy, currentMission, missionHistory, linkedSubmarines, receivedMessages := false, None, [], [], [];
    }

    ghost function State(): Record<CombatSubmarine>
      reads this
    {
      Record(busy, currentMission, missionHistory, linkedSubmarines, receivedMessages)
    }

    method AssignMission(description: string, commander: string, personnel: int, ghost fleet: set<CombatSubmarine>)
      returns (ok: bool)
      requires this in fleet
      modifies this
      ensures var op := Assign(this, Mission(description, commander, personnel));
              ok == Succeeds(old(Snapshot(fleet)), op) && Snapshot(fleet) == Do(old(Snapshot(fleet)), op)
    {
      if busy || description == "" || commander == "" || personnel < 0 {
        return false;
      }
      currentMission := Some(Mission(description, commander, personnel));
      busy := true;
      return true;
    }

    method IsLinkedTo(other: CombatSubmarine) returns (found: bool)
      ensures found <==> other in linkedSubmarines
    {
      var i := 0;
      while i < |linkedSubmarines|
        invariant 0 <= i <= |linkedSubmarines|
        invariant other !in linkedSubmarines[..i]
      {
        if linkedSubmarines[i] == other {
          return true;
        }
        i := i + 1;
      }
      return false;
    }

    method LinkSubmarine(other: CombatSubmarine, ghost fleet: set<CombatSubmarine>) returns (ok: bool)
      requires this in fleet && other in fleet
      modifies this, other
      ensures ok == Succeeds(old(Snapshot(fleet)), Link(this, other))
      ensures Snapshot(fleet) == Do(old(Snapshot(fleet)), Link(this, other))
    {
      if other == this {
        return false;
      }
      var already := IsLinkedTo(other);
      if already {
        return false;
      }
      linkedSubmarines := linkedSubmarines + [other];
      other.linkedSubmarines := other.linkedSubmarines + [this];
      return true;
    }

    /** What a peer's list loses when `gone` leaves: `std::remove` and `erase`. */
    method Drop(gone: CombatSubmarine, ghost fleet: set<CombatSubmarine>)
      requires this in fleet
      modifies this`linkedSubmarines
      ensures var w := old(Snapshot(fleet));
              Snapshot(fleet) == w[this := w[this].(links := Without(w[this].links, gone))]
    {
      hide Without;
      var kept: seq<CombatSubmarine> := [];
      var i := 0;
      WithoutNothing(linkedSubmarines[..0], gone);
      while i < |linkedSubmarines|
        invariant 0 <= i <= |linkedSubmarines|
        invariant linkedSubmarines == old(linkedSubmarines)
        invariant kept == Without(linkedSubmarines[..i], gone)
      {
        WithoutSnoc(linkedSubmarines, i, gone);
        if linkedSubmarines[i] != gone {
          kept := kept + [linkedSubmarines[i]];
        }
        i := i + 1;
      }
      assert linkedSubmarines[..i] == linkedSubmarines;
      linkedSubmarines := kept;
    }

    method SendMessage(recipient: CombatSubmarine, content: string, ghost fleet: set<CombatSubmarine>)
      returns (ok: bool)
      requires this in fleet && recipient in fleet
      modifies recipient`receivedMessages
      ensures ok == Succeeds(old(Snapshot(fleet)), Send(this, recipient, content))
      ensures Snapshot(fleet) == Do(old(Snapshot(fleet)), Send(this, recipient, content))
    {
      ok := IsLinkedTo(recipient);
      if ok {
        recipient.receivedMessages := recipient.receivedMessages + [Message(content, this)];
      }
    }

    /**
      Walks this submarine's list while taking itself out of each peer's. That the list being
      walked is not changed on the way rests on no submarine being linked to itself.
     */
    method EndMission(ghost fleet: set<CombatSubmarine>) returns (ok: bool)
      requires this in fleet && Valid(Snapshot(fleet))
      modifies fleet
      ensures ok == Succeeds(old(Snapshot(fleet)), End(this))
      ensures Snapshot(fleet) == Do(old(Snapshot(fleet)), End(this))
      ensures Valid(Snapshot(fleet))
    {
      hide Valid, Without, Do, PartlyUnlinked, Succeeds;
      ghost var w := Snapshot(fleet);
      EndSucceeds(w, this);
      if !busy {
        return false;
      }
      ArchiveMission(fleet);
      ghost var peers := linkedSubmarines;
      ghost var v := Snapshot(fleet);
      NobodyUnlinkedYet(v, this);
      ArchivedIsValid(w, this);
      var i := 0;
      while i < |linkedSubmarines|
        invariant 0 <= i <= |linkedSubmarines| && State() == v[this]
        invariant Snapshot(fleet) == PartlyUnlinked(v, this, peers[..i])
      {
        PeerStep(v, this, i);
        assert linkedSubmarines[i] in fleet && linkedSubmarines[i] != this;
        linkedSubmarines[i].Drop(this, fleet);
        i := i + 1;
      }
      assert peers[..i] == peers;
      linkedSubmarines := [];
      assert State() == Archive(w[this]);
      assert Snapshot(fleet) == PartlyUnlinked(v, this, peers)[this := Archive(w[this])];
      FullyUnlinked(w, v, this);
      EndKeepsValid(w, this);
      return true;
    }

    /** The base class's part, and the current mission into the history. */
    method ArchiveMission(ghost fleet: set<CombatSubmarine>)
      requires this in fleet
      modifies this
      ensures linkedSubmarines == old(linkedSubmarines)
      ensures Snapshot(fleet)
              == old(Snapshot(fleet))[this := Archive(old(State())).(links := linkedSubmarines)]
    {
      busy := false;
      if currentMission.Some? {
        missionHistory := missionHistory + [currentMission.value];
        currentMission := None;
      }
    }
  }

  /** The next peer is another submarine of the fleet, not seen before on this walk. */
  lemma {:induction false} PeerStep<T>(w: World<T>, s: T, i: nat)
    requires Valid(w) && s in w && i < |w[s].links|
    ensures var t, p := w[s].links[i], PartlyUnlinked(w, s, w[s].links[..i]);
            t in w && t != s && p.Keys == w.Keys
            && PartlyUnlinked(w, s, w[s].links[..i + 1]) == p[t := p[t].(links := Without(p[t].links, s))]
  {
    hide Without;
    var peers := w[s].links;
    var t := peers[i];
    assert Linked(w, t, s) && t != s;
    assert t !in peers[..i];
    assert peers[..i + 1] == peers[..i] + [t];
  }
}
