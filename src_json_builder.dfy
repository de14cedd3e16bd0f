/**
 * The JSON builder of src/json_builder.cpp. It keeps the same root and stack
 * of pointers as the other revision, but funnels Value, StartDict and
 * StartArray through one AddObject(object, is_container) and EndDict and
 * EndArray through one CloseBracket<T>. Those two are specified here on the
 * abstract state of module JsonBuilder, and are proved to make exactly the
 * moves of the other revision's calls, so its round trip carries over.
 */
module SrcJsonBuilder {
  import opened Wrappers
  import opened Json
  import opened JsonTree
  import JsonBuilder

  type State = JsonBuilder.State

  /** The alternatives CloseBracket<T> is instantiated with. */
  datatype Container = DictKind | ArrayKind

  /** std::holds_alternative<T> on a node. */
  predicate Holds(n: Node, kind: Container) {
    match kind
    case DictKind => n.Dict?
    case ArrayKind => n.Array?
  }

  /**
   * AddObject: an array on top gets the object appended, and a container is
   * then pushed; any other top is overwritten, and popped unless the obj
   * is a container that is still to be filled.
   */
  function AddObjectStep(st: State, obj: Node, isContainer: bool): (r: Result<State, Exception>)
    requires JsonBuilder.WellFormed(st)
    ensures r.Ok? <==> |st.stack| > 0
    ensures r.Err? ==> r.error == LogicError
    ensures r.Ok? ==> JsonBuilder.WellFormed(r.value)
    ensures r.Ok? && JsonBuilder.TopNode(st).Array? ==>
      && NodeAt(r.value.root, JsonBuilder.Top(st)) == Some(Array(JsonBuilder.TopNode(st).items + [obj]))
      && r.value.stack == st.stack + (if isContainer then [JsonBuilder.Top(st) + [Index(|JsonBuilder.TopNode(st).items|)]] else [])
    ensures r.Ok? && !JsonBuilder.TopNode(st).Array? ==>
      && NodeAt(r.value.root, JsonBuilder.Top(st)) == Some(obj)
      && r.value.stack == if isContainer then st.stack else st.stack[..|st.stack| - 1]
  {
    if |st.stack| == 0 then Err(LogicError)
    else if JsonBuilder.TopNode(st).Array? then
      if isContainer then Ok(JsonBuilder.Opened(st, obj))
      else Ok(JsonBuilder.Assign(st, Array(JsonBuilder.TopNode(st).items + [obj])))
    else
      var written := JsonBuilder.Assign(st, obj);
      if isContainer then Ok(written) else Ok(JsonBuilder.Pop(written))
  }

  /** CloseBracket<T>: the top must hold a T; it is complete and popped. */
  function CloseBracketStep(st: State, kind: Container): (r: Result<State, Exception>)
    requires JsonBuilder.WellFormed(st)
    ensures r.Ok? <==> |st.stack| > 0 && Holds(JsonBuilder.TopNode(st), kind)
    ensures r.Err? ==> r.error == LogicError
    ensures r.Ok? ==> JsonBuilder.WellFormed(r.value)
    ensures r.Ok? ==> r.value.root == st.root && r.value.stack == st.stack[..|st.stack| - 1]
  {
    if |st.stack| == 0 || !Holds(JsonBuilder.TopNode(st), kind) then Err(LogicError)
    else Ok(JsonBuilder.Pop(st))
  }

  /** The public calls, as this revision routes them. */
  function Step(st: State, call: JsonBuilder.Call): (r: Result<State, Exception>)
    requires JsonBuilder.WellFormed(st)
    ensures r.Ok? ==> JsonBuilder.WellFormed(r.value)
  {
    match call
    case KeyCall(k) => JsonBuilder.KeyStep(st, k)
    case ValueCall(v) => AddObjectStep(st, v, false)
    case StartDictCall => AddObjectStep(st, Dict(map[]), true)
    case EndDictCall => CloseBracketStep(st, DictKind)
    case StartArrayCall => AddObjectStep(st, Array([]), true)
    case EndArrayCall => CloseBracketStep(st, ArrayKind)
  }

  /** Every call makes the same move in both revisions. */
  lemma StepAgrees(st: State, call: JsonBuilder.Call)
    requires JsonBuilder.WellFormed(st)
    ensures Step(st, call) == JsonBuilder.Step(st, call)
  {
  }

  function Run(st: State, calls: seq<JsonBuilder.Call>): (r: Result<State, Exception>)
    requires JsonBuilder.WellFormed(st)
    ensures r.Ok? ==> JsonBuilder.WellFormed(r.value)
    decreases |calls|
  {
    if calls == [] then Ok(st)
    else
      var next := Step(st, calls[0]);
      if next.Err? then next else Run(next.value, calls[1..])
  }

  /** Any sequence of calls ends the same way in both revisions. */
  lemma {:induction false} RunAgrees(st: State, calls: seq<JsonBuilder.Call>)
    requires JsonBuilder.WellFormed(st)
    ensures Run(st, calls) == JsonBuilder.Run(st, calls)
    decreases |calls|
  {
    if calls != [] {
      StepAgrees(st, calls[0]);
      var next := Step(st, calls[0]);
      if next.Ok? {
        RunAgrees(next.value, calls[1..]);
      }
    }
  }

  /** Round trip for this revision: the calls that describe a node build it. */
  lemma BuildsBack(n: Node)
    ensures Run(JsonBuilder.Fresh, JsonBuilder.CallsFor(n)).Ok?
    ensures JsonBuilder.BuildResult(Run(JsonBuilder.Fresh, JsonBuilder.CallsFor(n)).value) == Ok(n)
  {
    RunAgrees(JsonBuilder.Fresh, JsonBuilder.CallsFor(n));
    JsonBuilder.BuildsBack(n);
  }

  // ---------------------------------------------------------------------
  // The class

  class Builder {
    var root: Node
    var stack: seq<Path>

    function Current(): State
      reads this
    {
      JsonBuilder.State(root, stack)
    }

    ghost predicate Valid()
      reads this
    {
      JsonBuilder.WellFormed(Current())
    }

    /** Builder(): a null root, and the stack holds a pointer to it. */
    constructor ()
      ensures Valid() && Current() == JsonBuilder.Fresh
    {
      root := Null;
      stack := [[]];
    }

    /** Key: the insertion is attempted first; a key already there is refused and the dictionary is unchanged. */
    method Key(k: string) returns (r: Result<(), Exception>)
      requires Valid()
      modifies this
      ensures Valid()
      ensures r.Ok? <==> JsonBuilder.KeyStep(old(Current()), k).Ok?
      ensures r.Ok? ==> Current() == JsonBuilder.KeyStep(old(Current()), k).value
      ensures r.Err? ==> r.error == LogicError && Current() == old(Current())
    {
      if |stack| == 0 || !NodeAt(root, stack[|stack| - 1]).value.Dict? {
        return Err(LogicError);
      }
      ghost var spec := JsonBuilder.KeyStep(Current(), k);
      var top := stack[|stack| - 1];
      var dict := NodeAt(root, top).value.entries;
      var inserted := k !in dict;
      if !inserted {
        return Err(LogicError);
      }
      root := Replace(root, top, Dict(dict[k := Null]));
      stack := stack + [top + [Member(k)]];
      assert Current() == spec.value;
      return Ok(());
    }

    method AddObject(obj: Node, isContainer: bool) returns (r: Result<(), Exception>)
      requires Valid()
      modifies this
      ensures Valid()
      ensures r.Ok? <==> AddObjectStep(old(Current()), obj, isContainer).Ok?
      ensures r.Ok? ==> Current() == AddObjectStep(old(Current()), obj, isContainer).value
      ensures r.Err? ==> r.error == LogicError && Current() == old(Current())
    {
      if |stack| == 0 {
        return Err(LogicError);
      }
      ghost var spec := AddObjectStep(Current(), obj, isContainer);
      var top := stack[|stack| - 1];
      var node := NodeAt(root, top).value;
      if node.Array? {
        root := Replace(root, top, Array(node.items + [obj]));
        if isContainer {
          stack := stack + [top + [Index(|node.items|)]];
        }
      } else {
        root := Replace(root, top, obj);
        if !isContainer {
          stack := stack[..|stack| - 1];
        }
      }
      assert Current() == spec.value;
      return Ok(());
    }

    method CloseBracket(kind: Container) returns (r: Result<(), Exception>)
      requires Valid()
      modifies this
      ensures Valid()
      ensures r.Ok? <==> CloseBracketStep(old(Current()), kind).Ok?
      ensures r.Ok? ==> Current() == CloseBracketStep(old(Current()), kind).value
      ensures r.Err? ==> r.error == LogicError && Current() == old(Current())
    {
      if |stack| == 0 || !Holds(NodeAt(root, stack[|stack| - 1]).value, kind) {
        return Err(LogicError);
      }
      ghost var popped := JsonBuilder.Pop(Current());
      stack := stack[..|stack| - 1];
      assert Current() == popped;
      return Ok(());
    }

    method Value(v: Node) returns (r: Result<(), Exception>)
      requires Valid()
      modifies this
      ensures Valid()
      ensures r.Ok? <==> Step(old(Current()), JsonBuilder.ValueCall(v)).Ok?
      ensures r.Ok? ==> Current() == Step(old(Current()), JsonBuilder.ValueCall(v)).value
      ensures r.Err? ==> r.error == LogicError && Current() == old(Current())
    {
      r := AddObject(v, false);
    }

    method StartDict() returns (r: Result<(), Exception>)
      requires Valid()
      modifies this
      ensures Valid()
      ensures r.Ok? <==> Step(old(Current()), JsonBuilder.StartDictCall).Ok?
      ensures r.Ok? ==> Current() == Step(old(Current()), JsonBuilder.StartDictCall).value
      ensures r.Err? ==> r.error == LogicError && Current() == old(Current())
    {
      r := AddObject(Dict(map[]), true);
    }

    method EndDict() returns (r: Result<(), Exception>)
      requires Valid()
      modifies this
      ensures Valid()
      ensures r.Ok? <==> Step(old(Current()), JsonBuilder.EndDictCall).Ok?
      ensures r.Ok? ==> Current() == Step(old(Current()), JsonBuilder.EndDictCall).value
      ensures r.Err? ==> r.error == LogicError && Current() == old(Current())
    {
      r := CloseBracket(DictKind);
    }

    method StartArray() returns (r: Result<(), Exception>)
      requires Valid()
      modifies this
      ensures Valid()
      ensures r.Ok? <==> Step(old(Current()), JsonBuilder.StartArrayCall).Ok?
      ensures r.Ok? ==> Current() == Step(old(Current()), JsonBuilder.StartArrayCall).value
      ensures r.Err? ==> r.error == LogicError && Current() == old(Current())
    {
      r := AddObject(Array([]), true);
    }

    method EndArray() returns (r: Result<(), Exception>)
      requires Valid()
      modifies this
      ensures Valid()
      ensures r.Ok? <==> Step(old(Current()), JsonBuilder.EndArrayCall).Ok?
      ensures r.Ok? ==> Current() == Step(old(Current()), JsonBuilder.EndArrayCall).value
      ensures r.Err? ==> r.error == LogicError && Current() == old(Current())
    {
      r := CloseBracket(ArrayKind);
    }

    method Build() returns (r: Result<Node, Exception>)
      requires Valid()
      ensures r == JsonBuilder.BuildResult(Current())
    {
      if stack != [] {
        return Err(LogicError);
      }
      return Ok(root);
    }
  }
}
