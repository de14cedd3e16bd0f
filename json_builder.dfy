/**
 * The JSON builder of transport-catalogue/json_builder.cpp: a root node and a
 * stack of pointers into it. Every call works on the node on top of the
 * stack; the stack empties exactly when the value is complete.
 *
 * A pointer on the stack is the path from the root to the node it points at
 * (module JsonTree). The stack is always a chain: each entry is the parent
 * path of the next one, which is what makes the popped-to entry a node that
 * still exists. The abstract `State` and one function per call are the
 * reference meaning of the class methods below; `Run` replays a sequence of
 * calls, and `BuildsBack` shows that the calls that describe a node build
 * that very node.
 */
module JsonBuilder {
  import opened Wrappers
  import opened Json
  import opened JsonTree
  import Strings

  datatype State = State(root: Node, stack: seq<Path>)

  /** The path of the pointer on top of the stack. */
  function Top(st: State): Path
    requires |st.stack| > 0
  {
    st.stack[|st.stack| - 1]
  }

  /** Each entry is the parent of the next one, and the top points at a node. */
  predicate WellFormed(st: State) {
    |st.stack| > 0 ==>
      && |Top(st)| == |st.stack| - 1
      && (forall i :: 0 <= i < |st.stack| ==> st.stack[i] == Top(st)[..i])
      && NodeAt(st.root, Top(st)).Some?
  }

  /** The node the top pointer points at. */
  function TopNode(st: State): Node
    requires WellFormed(st) && |st.stack| > 0
  {
    NodeAt(st.root, Top(st)).value
  }

  /** Builder(): a default (null) root, and the stack holds a pointer to it. */
  const Fresh := State(Null, [[]])

  // ---------------------------------------------------------------------
  // Stack primitives

  /** `*node_stack_.top() = v`. */
  function Assign(st: State, v: Node): (r: State)
    requires WellFormed(st) && |st.stack| > 0
    ensures WellFormed(r) && r.stack == st.stack && TopNode(r) == v
  {
    ReplaceAt(st.root, Top(st), v);
    State(Replace(st.root, Top(st), v), st.stack)
  }

  /** `node_stack_.pop()`. */
  function Pop(st: State): (r: State)
    requires WellFormed(st) && |st.stack| > 0
    ensures WellFormed(r) && r.root == st.root && r.stack == st.stack[..|st.stack| - 1]
  {
    var r := State(st.root, st.stack[..|st.stack| - 1]);
    if |r.stack| > 0 then
      assert Top(r) == Top(st)[..|st.stack| - 2];
      NodeAtPrefix(st.root, Top(st), |st.stack| - 2);
      r
    else r
  }

  /** `node_stack_.push(&child)` for the child one step below the top. */
  function Push(st: State, step: PathStep): (r: State)
    requires WellFormed(st) && |st.stack| > 0
    requires NodeAt(TopNode(st), [step]).Some?
    ensures WellFormed(r) && r.root == st.root && r.stack == st.stack + [Top(st) + [step]]
    ensures TopNode(r) == NodeAt(TopNode(st), [step]).value
  {
    NodeAtAppend(st.root, Top(st), [step]);
    var r := State(st.root, st.stack + [Top(st) + [step]]);
    assert forall i :: 0 <= i < |r.stack| ==> r.stack[i] == Top(r)[..i] by {
      forall i | 0 <= i < |r.stack|
        ensures r.stack[i] == Top(r)[..i]
      {
        if i < |st.stack| {
          assert Top(r)[..i] == Top(st)[..i];
        }
      }
    }
    r
  }

  // ---------------------------------------------------------------------
  // The calls

  /** Key: only on a dictionary, and only with a new key; the new member starts null and is pushed. */
  function KeyStep(st: State, k: string): (r: Result<State, Exception>)
    requires WellFormed(st)
    ensures r.Ok? <==> |st.stack| > 0 && TopNode(st).Dict? && k !in TopNode(st).entries
    ensures r.Err? ==> r.error == LogicError
    ensures r.Ok? ==> WellFormed(r.value) && r.value.stack == st.stack + [Top(st) + [Member(k)]]
    ensures r.Ok? ==> NodeAt(r.value.root, Top(st)) == Some(Dict(TopNode(st).entries[k := Null]))
    ensures r.Ok? ==> TopNode(r.value) == Null
  {
    if |st.stack| == 0 || !TopNode(st).Dict? then Err(LogicError)
    else if k in TopNode(st).entries then Err(LogicError)
    else
      var dict := Assign(st, Dict(TopNode(st).entries[k := Null]));
      ChildAt(TopNode(dict), Member(k));
      Ok(Push(dict, Member(k)))
  }

  /** Value: appended to an array on top, otherwise written over the top, which is then done and popped. */
  function ValueStep(st: State, v: Node): (r: Result<State, Exception>)
    requires WellFormed(st)
    ensures r.Ok? <==> |st.stack| > 0
    ensures r.Err? ==> r.error == LogicError
    ensures r.Ok? ==> WellFormed(r.value)
    ensures r.Ok? && TopNode(st).Array? ==>
      r.value.stack == st.stack && TopNode(r.value) == Array(TopNode(st).items + [v])
    ensures r.Ok? && !TopNode(st).Array? ==>
      r.value.stack == st.stack[..|st.stack| - 1] && NodeAt(r.value.root, Top(st)) == Some(v)
  {
    if |st.stack| == 0 then Err(LogicError)
    else if TopNode(st).Array? then Ok(Assign(st, Array(TopNode(st).items + [v])))
    else
      var done := Assign(st, v);
      Ok(Pop(done))
  }

  /**
   * StartDict / StartArray: the empty container is appended to an array on
   * top and pushed; any other top is overwritten by it and stays on top.
   */
  function StartStep(st: State, empty: Node): (r: Result<State, Exception>)
    requires WellFormed(st)
    ensures r.Ok? <==> |st.stack| > 0
    ensures r.Err? ==> r.error == LogicError
    ensures r.Ok? ==> WellFormed(r.value) && |r.value.stack| > 0 && TopNode(r.value) == empty
    ensures r.Ok? && TopNode(st).Array? ==>
      && r.value.stack == st.stack + [Top(st) + [Index(|TopNode(st).items|)]]
      && NodeAt(r.value.root, Top(st)) == Some(Array(TopNode(st).items + [empty]))
    ensures r.Ok? && !TopNode(st).Array? ==> r.value.stack == st.stack
  {
    if |st.stack| == 0 then Err(LogicError)
    else if TopNode(st).Array? then Ok(Opened(st, empty))
    else Ok(Assign(st, empty))
  }

  /** A new container appended to the array on top, and a pointer to it pushed. */
  function Opened(st: State, empty: Node): (r: State)
    requires WellFormed(st) && |st.stack| > 0 && TopNode(st).Array?
    ensures WellFormed(r) && |r.stack| > 0 && TopNode(r) == empty
    ensures r.stack == st.stack + [Top(st) + [Index(|TopNode(st).items|)]]
    ensures NodeAt(r.root, Top(st)) == Some(Array(TopNode(st).items + [empty]))
  {
    var items := TopNode(st).items;
    var grown := Assign(st, Array(items + [empty]));
    ChildAt(TopNode(grown), Index(|items|));
    Push(grown, Index(|items|))
  }

  function StartDictStep(st: State): Result<State, Exception>
    requires WellFormed(st)
  {
    StartStep(st, Dict(map[]))
  }

  function StartArrayStep(st: State): Result<State, Exception>
    requires WellFormed(st)
  {
    StartStep(st, Array([]))
  }

  /** EndDict: the top must be a dictionary; it is complete and popped. */
  function EndDictStep(st: State): (r: Result<State, Exception>)
    requires WellFormed(st)
    ensures r.Ok? <==> |st.stack| > 0 && TopNode(st).Dict?
    ensures r.Err? ==> r.error == LogicError
    ensures r.Ok? ==> WellFormed(r.value) && r.value.root == st.root && r.value.stack == st.stack[..|st.stack| - 1]
  {
    if |st.stack| == 0 || !TopNode(st).Dict? then Err(LogicError) else Ok(Pop(st))
  }

  /** EndArray: the top must be an array; it is complete and popped. */
  function EndArrayStep(st: State): (r: Result<State, Exception>)
    requires WellFormed(st)
    ensures r.Ok? <==> |st.stack| > 0 && TopNode(st).Array?
    ensures r.Err? ==> r.error == LogicError
    ensures r.Ok? ==> WellFormed(r.value) && r.value.root == st.root && r.value.stack == st.stack[..|st.stack| - 1]
  {
    if |st.stack| == 0 || !TopNode(st).Array? then Err(LogicError) else Ok(Pop(st))
  }

  /** Build: only once the stack is empty, and then the root. */
  function BuildResult(st: State): (r: Result<Node, Exception>)
    ensures r.Ok? <==> st.stack == []
    ensures r.Ok? ==> r.value == st.root
    ensures r.Err? ==> r.error == LogicError
  {
    if st.stack != [] then Err(LogicError) else Ok(st.root)
  }

  // ---------------------------------------------------------------------
  // Sequences of calls

  datatype Call =
    | KeyCall(key: string)
    | ValueCall(value: Node)
    | StartDictCall
    | EndDictCall
    | StartArrayCall
    | EndArrayCall

  function Step(st: State, call: Call): (r: Result<State, Exception>)
    requires WellFormed(st)
    ensures r.Ok? ==> WellFormed(r.value)
  {
    match call
    case KeyCall(k) => KeyStep(st, k)
    case ValueCall(v) => ValueStep(st, v)
    case StartDictCall => StartDictStep(st)
    case EndDictCall => EndDictStep(st)
    case StartArrayCall => StartArrayStep(st)
    case EndArrayCall => EndArrayStep(st)
  }

  /** The calls one after another; the first exception ends the chain. */
  function Run(st: State, calls: seq<Call>): (r: Result<State, Exception>)
    requires WellFormed(st)
    ensures r.Ok? ==> WellFormed(r.value)
    decreases |calls|
  {
    if calls == [] then Ok(st)
    else
      var next := Step(st, calls[0]);
      if next.Err? then next else Run(next.value, calls[1..])
  }

  lemma {:induction false} RunAppend(st: State, a: seq<Call>, b: seq<Call>)
    requires WellFormed(st)
    ensures Run(st, a + b) == if Run(st, a).Ok? then Run(Run(st, a).value, b) else Run(st, a)
    decreases |a|
  {
    if a == [] {
      assert a + b == b;
    } else {
      assert (a + b)[0] == a[0] && (a + b)[1..] == a[1..] + b;
      var next := Step(st, a[0]);
      if next.Ok? {
        RunAppend(next.value, a[1..], b);
      }
    }
  }

  // ---------------------------------------------------------------------
  // The calls that describe a node

  /** A scalar is one Value; a container is Start, its members, End (dictionary keys ascending, as std::map iterates). */
  function CallsFor(n: Node): seq<Call>
    decreases n, 3
  {
    match n
    case Array(items) => [StartArrayCall] + ItemsCalls(n, 0) + [EndArrayCall]
    case Dict(entries) => [StartDictCall] + EntriesCalls(n, Strings.SortedKeys(entries.Keys)) + [EndDictCall]
    case _ => [ValueCall(n)]
  }

  function ItemsCalls(n: Node, i: nat): seq<Call>
    requires n.Array? && i <= |n.items|
    decreases n, 1, |n.items| - i
  {
    if i == |n.items| then [] else CallsFor(n.items[i]) + ItemsCalls(n, i + 1)
  }

  function EntriesCalls(n: Node, keys: seq<string>): seq<Call>
    requires n.Dict? && forall k :: k in keys ==> k in n.entries
    decreases n, 1, |keys|
  {
    if keys == [] then []
    else [KeyCall(keys[0])] + CallsFor(n.entries[keys[0]]) + EntriesCalls(n, keys[1..])
  }

  /** Two assignments through the top pointer: the second wins. */
  lemma AssignTwice(st: State, a: Node, b: Node)
    requires WellFormed(st) && |st.stack| > 0
    ensures Assign(Assign(st, a), b) == Assign(st, b)
  {
    ReplaceTwice(st.root, Top(st), a, b);
  }

  /** Assigning below a pushed child and popping it is assigning the grown node at the parent. */
  lemma AssignBelow(st: State, step: PathStep, x: Node)
    requires WellFormed(st) && |st.stack| > 0
    requires NodeAt(TopNode(st), [step]).Some?
    ensures Pop(Assign(Push(st, step), x)) == Assign(st, Replace(TopNode(st), [step], x))
  {
    NodeAtAppend(st.root, Top(st), [step]);
    ReplaceAppend(st.root, Top(st), [step], x);
  }

  /** A bracketed run: the opening call, the body, then the closing call. */
  lemma Bracketed(st: State, start: Call, body: seq<Call>, end: Call, open: State, full: State)
    requires WellFormed(st) && WellFormed(open)
    requires Step(st, start) == Ok(open) && Run(open, body) == Ok(full)
    ensures Run(st, [start] + body + [end]) == Step(full, end)
  {
    assert [start] + body + [end] == [start] + (body + [end]);
    RunAppend(st, [start], body + [end]);
    RunAppend(open, body, [end]);
  }

  /** A Start call on a non-array top writes the empty container over it. */
  lemma StartsOver(st: State, empty: Node, call: Call)
    requires WellFormed(st) && |st.stack| > 0 && !TopNode(st).Array?
    requires (call == StartDictCall && empty == Dict(map[])) || (call == StartArrayCall && empty == Array([]))
    ensures Step(st, call) == Ok(Assign(st, empty))
  {
  }

  /** A Start call on an array top appends the empty container and pushes it. */
  lemma StartsInArray(st: State, empty: Node, call: Call)
    requires WellFormed(st) && |st.stack| > 0 && TopNode(st).Array?
    requires (call == StartDictCall && empty == Dict(map[])) || (call == StartArrayCall && empty == Array([]))
    ensures Step(st, call) == Ok(Opened(st, empty))
  {
  }

  /** The matching End call pops the container. */
  lemma Closes(st: State, call: Call)
    requires WellFormed(st) && |st.stack| > 0
    requires (call == EndDictCall && TopNode(st).Dict?) || (call == EndArrayCall && TopNode(st).Array?)
    ensures Step(st, call) == Ok(Pop(st))
  {
  }

  /** The calls of a node, with a non-array on top, write the node over the top and pop it. */
  lemma {:induction false} Fill(st: State, n: Node)
    requires WellFormed(st) && |st.stack| > 0 && !TopNode(st).Array?
    ensures Run(st, CallsFor(n)) == Ok(Pop(Assign(st, n)))
    decreases n, 4
  {
    match n
    case Array(_) => FillArray(st, n);
    case Dict(_) => FillDict(st, n);
    case _ =>
      assert Run(st, [ValueCall(n)]) == Step(st, ValueCall(n));
  }

  lemma {:induction false} FillArray(st: State, n: Node)
    requires WellFormed(st) && |st.stack| > 0 && !TopNode(st).Array? && n.Array?
    ensures Run(st, CallsFor(n)) == Ok(Pop(Assign(st, n)))
    decreases n, 3
  {
    var open := Assign(st, Array([]));
    ArrayBody(open, n);
    StartsOver(st, Array([]), StartArrayCall);
    Closes(Assign(open, n), EndArrayCall);
    Bracketed(st, StartArrayCall, ItemsCalls(n, 0), EndArrayCall, open, Assign(open, n));
    AssignTwice(st, Array([]), n);
  }

  lemma {:induction false} FillDict(st: State, n: Node)
    requires WellFormed(st) && |st.stack| > 0 && !TopNode(st).Array? && n.Dict?
    ensures Run(st, CallsFor(n)) == Ok(Pop(Assign(st, n)))
    decreases n, 3
  {
    var open := Assign(st, Dict(map[]));
    DictBody(open, n);
    StartsOver(st, Dict(map[]), StartDictCall);
    Closes(Assign(open, n), EndDictCall);
    Bracketed(st, StartDictCall, EntriesCalls(n, Strings.SortedKeys(n.entries.Keys)), EndDictCall, open, Assign(open, n));
    AssignTwice(st, Dict(map[]), n);
  }

  /** The items of an array, on an empty array on top, fill it. */
  lemma {:induction false} ArrayBody(st: State, n: Node)
    requires WellFormed(st) && |st.stack| > 0 && TopNode(st) == Array([]) && n.Array?
    ensures Run(st, ItemsCalls(n, 0)) == Ok(Assign(st, n))
    decreases n, 2
  {
    assert n.items[..0] == [];
    Items(st, n, 0);
  }

  /** The members of a dictionary, on an empty dictionary on top, fill it. */
  lemma {:induction false} DictBody(st: State, n: Node)
    requires WellFormed(st) && |st.stack| > 0 && TopNode(st) == Dict(map[]) && n.Dict?
    ensures Run(st, EntriesCalls(n, Strings.SortedKeys(n.entries.Keys))) == Ok(Assign(st, n))
    decreases n, 2
  {
    Entries(st, n, Strings.SortedKeys(n.entries.Keys), map[]);
    MembersAll(n);
  }

  /** The calls of a node, with an array on top, append the node to it. */
  lemma {:induction false} Append(st: State, n: Node)
    requires WellFormed(st) && |st.stack| > 0 && TopNode(st).Array?
    ensures Run(st, CallsFor(n)) == Ok(Assign(st, Array(TopNode(st).items + [n])))
    decreases n, 4
  {
    match n
    case Array(_) => AppendArray(st, n);
    case Dict(_) => AppendDict(st, n);
    case _ =>
      assert Run(st, [ValueCall(n)]) == Step(st, ValueCall(n));
  }

  lemma {:induction false} AppendArray(st: State, n: Node)
    requires WellFormed(st) && |st.stack| > 0 && TopNode(st).Array? && n.Array?
    ensures Run(st, CallsFor(n)) == Ok(Assign(st, Array(TopNode(st).items + [n])))
    decreases n, 3
  {
    var open := Opened(st, Array([]));
    ArrayBody(open, n);
    StartsInArray(st, Array([]), StartArrayCall);
    Closes(Assign(open, n), EndArrayCall);
    Bracketed(st, StartArrayCall, ItemsCalls(n, 0), EndArrayCall, open, Assign(open, n));
    Reattach(st, Array([]), n);
  }

  lemma {:induction false} AppendDict(st: State, n: Node)
    requires WellFormed(st) && |st.stack| > 0 && TopNode(st).Array? && n.Dict?
    ensures Run(st, CallsFor(n)) == Ok(Assign(st, Array(TopNode(st).items + [n])))
    decreases n, 3
  {
    var open := Opened(st, Dict(map[]));
    DictBody(open, n);
    StartsInArray(st, Dict(map[]), StartDictCall);
    Closes(Assign(open, n), EndDictCall);
    Bracketed(st, StartDictCall, EntriesCalls(n, Strings.SortedKeys(n.entries.Keys)), EndDictCall, open, Assign(open, n));
    Reattach(st, Dict(map[]), n);
  }

  /** An empty container appended and pushed, then filled with n and popped, leaves n appended. */
  lemma Reattach(st: State, empty: Node, n: Node)
    requires WellFormed(st) && |st.stack| > 0 && TopNode(st).Array?
    ensures Pop(Assign(Opened(st, empty), n)) == Assign(st, Array(TopNode(st).items + [n]))
  {
    var items := TopNode(st).items;
    var grown := Assign(st, Array(items + [empty]));
    ChildAt(Array(items + [empty]), Index(|items|));
    AssignBelow(grown, Index(|items|), n);
    ReplaceChild(Array(items + [empty]), Index(|items|), n);
    assert (items + [empty])[|items| := n] == items + [n];
    AssignTwice(st, Array(items + [empty]), Array(items + [n]));
  }

  /** The calls of items i.. of n, with items ..i on top, complete the array. */
  lemma {:induction false} Items(st: State, n: Node, i: nat)
    requires n.Array? && i <= |n.items|
    requires WellFormed(st) && |st.stack| > 0 && TopNode(st) == Array(n.items[..i])
    ensures Run(st, ItemsCalls(n, i)) == Ok(Assign(st, n))
    decreases n, 1, |n.items| - i
  {
    if i == |n.items| {
      assert n.items[..i] == n.items;
      ReplaceSame(st.root, Top(st));
    } else {
      Append(st, n.items[i]);
      var next := Assign(st, Array(n.items[..i] + [n.items[i]]));
      assert n.items[..i] + [n.items[i]] == n.items[..i + 1];
      RunAppend(st, CallsFor(n.items[i]), ItemsCalls(n, i + 1));
      Items(next, n, i + 1);
      AssignTwice(st, Array(n.items[..i + 1]), n);
    }
  }

  /** The members of n under the given keys, added to the dictionary `done` on top. */
  function Members(n: Node, keys: seq<string>, done: map<string, Node>): map<string, Node>
    requires n.Dict? && forall k :: k in keys ==> k in n.entries
    decreases |keys|
  {
    if keys == [] then done else Members(n, keys[1..], done[keys[0] := n.entries[keys[0]]])
  }

  /** One member: its key, then the calls of its value, with `done` on top. */
  lemma {:induction false} Entry(st: State, k: string, v: Node, done: map<string, Node>)
    requires k !in done
    requires WellFormed(st) && |st.stack| > 0 && TopNode(st) == Dict(done)
    ensures Run(st, [KeyCall(k)] + CallsFor(v)) == Ok(Assign(st, Dict(done[k := v])))
    decreases v, 5
  {
    KeyOpens(st, k, done);
    var slot := Push(Assign(st, Dict(done[k := Null])), Member(k));
    Fill(slot, v);
    RunAppend(st, [KeyCall(k)], CallsFor(v));
    MemberClosed(st, k, v, done);
  }

  /** Key adds a null member under k and pushes a pointer to it. */
  lemma KeyOpens(st: State, k: string, done: map<string, Node>)
    requires k !in done
    requires WellFormed(st) && |st.stack| > 0 && TopNode(st) == Dict(done)
    ensures NodeAt(TopNode(Assign(st, Dict(done[k := Null]))), [Member(k)]) == Some(Null)
    ensures Run(st, [KeyCall(k)]) == Ok(Push(Assign(st, Dict(done[k := Null])), Member(k)))
  {
    ChildAt(Dict(done[k := Null]), Member(k));
    assert Run(st, [KeyCall(k)]) == Step(st, KeyCall(k));
  }

  /** Writing v at the pushed member and popping it leaves done with k bound to v on top. */
  lemma MemberClosed(st: State, k: string, v: Node, done: map<string, Node>)
    requires WellFormed(st) && |st.stack| > 0 && TopNode(st) == Dict(done)
    ensures NodeAt(TopNode(Assign(st, Dict(done[k := Null]))), [Member(k)]).Some?
    ensures Pop(Assign(Push(Assign(st, Dict(done[k := Null])), Member(k)), v)) == Assign(st, Dict(done[k := v]))
  {
    var dict := Assign(st, Dict(done[k := Null]));
    ChildAt(Dict(done[k := Null]), Member(k));
    AssignBelow(dict, Member(k), v);
    ReplaceChild(Dict(done[k := Null]), Member(k), v);
    assert done[k := Null][k := v] == done[k := v];
    AssignTwice(st, Dict(done[k := Null]), Dict(done[k := v]));
  }

  /** The calls of the members under `keys`, none of them already on top, add those members. */
  lemma {:induction false} Entries(st: State, n: Node, keys: seq<string>, done: map<string, Node>)
    requires n.Dict? && forall k :: k in keys ==> k in n.entries
    requires Strings.NoDuplicates(keys) && forall k :: k in keys ==> k !in done
    requires WellFormed(st) && |st.stack| > 0 && TopNode(st) == Dict(done)
    ensures Run(st, EntriesCalls(n, keys)) == Ok(Assign(st, Dict(Members(n, keys, done))))
    decreases n, 1, |keys|
  {
    if keys == [] {
      ReplaceSame(st.root, Top(st));
    } else {
      var k := keys[0];
      var v := n.entries[k];
      Entry(st, k, v, done);
      var next := Assign(st, Dict(done[k := v]));
      RunAppend(st, [KeyCall(k)] + CallsFor(v), EntriesCalls(n, keys[1..]));
      assert forall j :: 0 <= j < |keys[1..]| ==> keys[1..][j] == keys[j + 1];
      Entries(next, n, keys[1..], done[k := v]);
      AssignTwice(st, Dict(done[k := v]), Dict(Members(n, keys[1..], done[k := v])));
    }
  }

  /** Adding the members under all the keys of n to an empty dictionary gives n's dictionary. */
  lemma MembersAll(n: Node)
    requires n.Dict?
    ensures Members(n, Strings.SortedKeys(n.entries.Keys), map[]) == n.entries
  {
    var keys := Strings.SortedKeys(n.entries.Keys);
    MembersMeaning(n, keys, map[]);
  }

  lemma {:induction false} MembersMeaning(n: Node, keys: seq<string>, done: map<string, Node>)
    requires n.Dict? && forall k :: k in keys ==> k in n.entries
    ensures forall k :: k in Members(n, keys, done) <==> k in done || k in keys
    ensures forall k :: k in keys ==> Members(n, keys, done)[k] == n.entries[k]
    ensures forall k :: k in done && k !in keys ==> Members(n, keys, done)[k] == done[k]
    decreases |keys|
  {
    if keys != [] {
      MembersMeaning(n, keys[1..], done[keys[0] := n.entries[keys[0]]]);
    }
  }

  /**
   * Round trip: from a fresh builder, the calls that describe a node build
   * it, and Build returns it.
   */
  lemma BuildsBack(n: Node)
    ensures Run(Fresh, CallsFor(n)).Ok?
    ensures BuildResult(Run(Fresh, CallsFor(n)).value) == Ok(n)
  {
    Fill(Fresh, n);
  }

  // ---------------------------------------------------------------------
  // One level deep: a container built at the root

  /** The builder with the root complete or still on top. */
  function AtRoot(n: Node, open: bool): (r: State)
    ensures WellFormed(r)
  {
    State(n, if open then [[]] else [])
  }

  /** StartDict / StartArray on a fresh builder: the root becomes the empty container and stays on top. */
  lemma StartAtRoot(empty: Node)
    ensures StartStep(Fresh, empty) == Ok(AtRoot(empty, true))
  {
  }

  /** A new key and then its value, on a dictionary root: the member is added and the root is on top again. */
  lemma MemberAtRoot(m: map<string, Node>, k: string, v: Node)
    requires k !in m
    ensures KeyStep(AtRoot(Dict(m), true), k).Ok?
    ensures ValueStep(KeyStep(AtRoot(Dict(m), true), k).value, v) == Ok(AtRoot(Dict(m[k := v]), true))
  {
    var st := AtRoot(Dict(m), true);
    ChildAt(Dict(m[k := Null]), Member(k));
    var path: Path := [];
    assert path + [Member(k)] == [Member(k)];
    var slot := KeyStep(st, k).value;
    assert slot.root == Dict(m[k := Null]);
    assert slot.stack == [[], [Member(k)]];
    ReplaceChild(Dict(m[k := Null]), Member(k), v);
    assert m[k := Null][k := v] == m[k := v];
  }

  /** A value on an array root is appended, and the root stays on top. */
  lemma ItemAtRoot(items: seq<Node>, v: Node)
    ensures ValueStep(AtRoot(Array(items), true), v) == Ok(AtRoot(Array(items + [v]), true))
  {
  }

  /** Closing the root container leaves it complete. */
  lemma CloseAtRoot(n: Node)
    ensures n.Dict? ==> EndDictStep(AtRoot(n, true)) == Ok(AtRoot(n, false))
    ensures n.Array? ==> EndArrayStep(AtRoot(n, true)) == Ok(AtRoot(n, false))
  {
  }

  // ---------------------------------------------------------------------
  // The class

  class Builder {
    var root: Node
    var stack: seq<Path>

    function Current(): State
      reads this
    {
      State(root, stack)
    }

    ghost predicate Valid()
      reads this
    {
      WellFormed(Current())
    }

    constructor ()
      ensures Valid() && Current() == Fresh
    {
      root := Null;
      stack := [[]];
    }

    method Key(k: string) returns (r: Result<(), Exception>)
      requires Valid()
      modifies this
      ensures Valid()
      ensures r.Ok? <==> KeyStep(old(Current()), k).Ok?
      ensures r.Ok? ==> Current() == KeyStep(old(Current()), k).value
      ensures r.Err? ==> r.error == LogicError && Current() == old(Current())
    {
      if |stack| == 0 || !NodeAt(root, stack[|stack| - 1]).value.Dict? {
        return Err(LogicError);
      }
      ghost var spec := KeyStep(Current(), k);
      var top := stack[|stack| - 1];
      var dict := NodeAt(root, top).value.entries;
      if k in dict {
        return Err(LogicError);
      }
      root := Replace(root, top, Dict(dict[k := Null]));
      stack := stack + [top + [Member(k)]];
      assert Current() == spec.value;
      return Ok(());
    }

    method Value(v: Node) returns (r: Result<(), Exception>)
      requires Valid()
      modifies this
      ensures Valid()
      ensures r.Ok? <==> ValueStep(old(Current()), v).Ok?
      ensures r.Ok? ==> Current() == ValueStep(old(Current()), v).value
      ensures r.Err? ==> r.error == LogicError && Current() == old(Current())
    {
      if |stack| == 0 {
        return Err(LogicError);
      }
      ghost var spec := ValueStep(Current(), v);
      var top := stack[|stack| - 1];
      var node := NodeAt(root, top).value;
      if node.Array? {
        root := Replace(root, top, Array(node.items + [v]));
      } else {
        root := Replace(root, top, v);
        stack := stack[..|stack| - 1];
      }
      assert Current() == spec.value;
      return Ok(());
    }

    method StartDict() returns (r: Result<(), Exception>)
      requires Valid()
      modifies this
      ensures Valid()
      ensures r.Ok? <==> StartDictStep(old(Current())).Ok?
      ensures r.Ok? ==> Current() == StartDictStep(old(Current())).value
      ensures r.Err? ==> r.error == LogicError && Current() == old(Current())
    {
      r := Start(Dict(map[]));
    }

    method StartArray() returns (r: Result<(), Exception>)
      requires Valid()
      modifies this
      ensures Valid()
      ensures r.Ok? <==> StartArrayStep(old(Current())).Ok?
      ensures r.Ok? ==> Current() == StartArrayStep(old(Current())).value
      ensures r.Err? ==> r.error == LogicError && Current() == old(Current())
    {
      r := Start(Array([]));
    }

    /** The shared body of StartDict and StartArray. */
    method Start(empty: Node) returns (r: Result<(), Exception>)
      requires Valid()
      modifies this
      ensures Valid()
      ensures r.Ok? <==> StartStep(old(Current()), empty).Ok?
      ensures r.Ok? ==> Current() == StartStep(old(Current()), empty).value
      ensures r.Err? ==> r.error == LogicError && Current() == old(Current())
    {
      if |stack| == 0 {
        return Err(LogicError);
      }
      ghost var spec := StartStep(Current(), empty);
      var top := stack[|stack| - 1];
      var node := NodeAt(root, top).value;
      if node.Array? {
        root := Replace(root, top, Array(node.items + [empty]));
        stack := stack + [top + [Index(|node.items|)]];
      } else {
        root := Replace(root, top, empty);
      }
      assert Current() == spec.value;
      return Ok(());
    }

    method EndDict() returns (r: Result<(), Exception>)
      requires Valid()
      modifies this
      ensures Valid()
      ensures r.Ok? <==> EndDictStep(old(Current())).Ok?
      ensures r.Ok? ==> Current() == EndDictStep(old(Current())).value
      ensures r.Err? ==> r.error == LogicError && Current() == old(Current())
    {
      if |stack| == 0 || !NodeAt(root, stack[|stack| - 1]).value.Dict? {
        return Err(LogicError);
      }
      ghost var popped := Pop(Current());
      stack := stack[..|stack| - 1];
      assert Current() == popped;
      return Ok(());
    }

    method EndArray() returns (r: Result<(), Exception>)
      requires Valid()
      modifies this
      ensures Valid()
      ensures r.Ok? <==> EndArrayStep(old(Current())).Ok?
      ensures r.Ok? ==> Current() == EndArrayStep(old(Current())).value
      ensures r.Err? ==> r.error == LogicError && Current() == old(Current())
    {
      if |stack| == 0 || !NodeAt(root, stack[|stack| - 1]).value.Array? {
        return Err(LogicError);
      }
      ghost var popped := Pop(Current());
      stack := stack[..|stack| - 1];
      assert Current() == popped;
      return Ok(());
    }

    method Build() returns (r: Result<Node, Exception>)
      requires Valid()
      ensures r == BuildResult(Current())
    {
      if stack != [] {
        return Err(LogicError);
      }
      return Ok(root);
    }
  }
}
