/** `yarl.scene`: the scene stack.  The scenes' hooks are recorded as an
    event trace instead of being run; what a scene does in its hooks is
    its subclass's business and is not modelled. */
module Scenes {
  import opened Wrappers

  /** A scene object: its class name and an identity. */
  datatype Scene = Scene(name: string, id: nat)

  /** The hook calls the stack makes, with their arguments. */
  datatype Event =
    | OnExit(scene: Scene, nextScene: Scene)
    | OnEnter(scene: Scene, prevScene: Scene)
    | Updated(scene: Scene)
    | Displayed(scene: Scene, render: nat)

  datatype SceneGraph = SceneGraph(stack: seq<Scene>)

  /** The stack after an operation, the hooks it called in order, and
      whether it raised. */
  datatype Step = Step(graph: SceneGraph, events: seq<Event>, result: Result<()>)

  /** `SceneGraph()`: an empty stack. */
  function NewSceneGraph(): (g: SceneGraph)
    ensures |g.stack| == 0
  {
    SceneGraph([])
  }

  /** `top()`: the last scene; `IndexError` on an empty stack. */
  function Top(g: SceneGraph): (r: Result<Scene>)
    ensures r.Ok? <==> |g.stack| > 0
    ensures r.Ok? ==> r.value == g.stack[|g.stack| - 1]
    ensures r.Err? ==> r.error == IndexError
  {
    if |g.stack| == 0 then Err(IndexError) else Ok(g.stack[|g.stack| - 1])
  }

  /** `push(scene)`: the old top is told it is left for the scene, the
      scene goes on top and is told what it follows.  Reading the top of an empty stack
      fails before anything happens. */
  function Push(g: SceneGraph, s: Scene): (st: Step)
    ensures |g.stack| == 0 ==> st == Step(g, [], Err(IndexError))
    ensures |g.stack| > 0 ==> st.result == Ok(()) && st.graph.stack == g.stack + [s]
    ensures |g.stack| > 0 ==> var leaving := g.stack[|g.stack| - 1];
              st.events == [OnExit(leaving, s), OnEnter(s, leaving)]
  {
    match Top(g)
    case Err(e) => Step(g, [], Err(e))
    case Ok(leaving) => Step(SceneGraph(g.stack + [s]), [OnExit(leaving, s), OnEnter(s, leaving)], Ok(()))
  }

  /** `pop()`: the top is removed, then the new top is read; the removed
      scene is told what it returns to and the new top what it follows.
      An empty stack fails at the removal; a single scene is removed and
      the read of the new top then fails, with no hook called. */
  function Pop(g: SceneGraph): (st: Step)
    ensures |g.stack| == 0 ==> st == Step(g, [], Err(IndexError))
    ensures |g.stack| == 1 ==> st == Step(SceneGraph([]), [], Err(IndexError))
    ensures |g.stack| >= 2 ==> st.result == Ok(()) && st.graph.stack == g.stack[..|g.stack| - 1]
    ensures |g.stack| >= 2 ==>
              var leaving := g.stack[|g.stack| - 1];
              var below := g.stack[|g.stack| - 2];
              st.events == [OnExit(leaving, below), OnEnter(below, leaving)]
  {
    if |g.stack| == 0 then Step(g, [], Err(IndexError))
    else
      var leaving := g.stack[|g.stack| - 1];
      var g1 := SceneGraph(g.stack[..|g.stack| - 1]);
      match Top(g1)
      case Err(e) => Step(g1, [], Err(e))
      case Ok(below) => Step(g1, [OnExit(leaving, below), OnEnter(below, leaving)], Ok(()))
  }

  /** `update()`: only the top scene is updated; the stack is unchanged. */
  function Update(g: SceneGraph): (st: Step)
    ensures st.graph == g
    ensures st.result.Ok? <==> |g.stack| > 0
    ensures st.result.Err? ==> st.result.error == IndexError && st.events == []
    ensures st.result.Ok? ==> st.events == [Updated(g.stack[|g.stack| - 1])]
  {
    match Top(g)
    case Err(e) => Step(g, [], Err(e))
    case Ok(top) => Step(g, [Updated(top)], Ok(()))
  }

  /** `display(render)`: only the top scene draws; the stack is
      unchanged. */
  function Display(g: SceneGraph, render: nat): (st: Step)
    ensures st.graph == g
    ensures st.result.Ok? <==> |g.stack| > 0
    ensures st.result.Err? ==> st.result.error == IndexError && st.events == []
    ensures st.result.Ok? ==> st.events == [Displayed(g.stack[|g.stack| - 1], render)]
  {
    match Top(g)
    case Err(e) => Step(g, [], Err(e))
    case Ok(top) => Step(g, [Displayed(top, render)], Ok(()))
  }

  /** A push undone by a pop restores the stack; the hooks run as exit
      and enter, then the mirror image. */
  lemma PushThenPop(g: SceneGraph, s: Scene)
    requires |g.stack| > 0
    ensures Pop(Push(g, s).graph).result == Ok(())
    ensures Pop(Push(g, s).graph).graph == g
    ensures var leaving := g.stack[|g.stack| - 1];
            Push(g, s).events + Pop(Push(g, s).graph).events
              == [OnExit(leaving, s), OnEnter(s, leaving), OnExit(s, leaving), OnEnter(leaving, s)]
  {
    assert (g.stack + [s])[..|g.stack|] == g.stack;
  }

  /** Pushes the scenes of `ss` in order, stopping at the first failure. */
  function PushAll(g: SceneGraph, ss: seq<Scene>): (st: Step)
    decreases |ss|
  {
    if |ss| == 0 then Step(g, [], Ok(()))
    else
      var st1 := Push(g, ss[0]);
      if st1.result.Err? then st1
      else
        var st2 := PushAll(st1.graph, ss[1..]);
        Step(st2.graph, st1.events + st2.events, st2.result)
  }

  /** Pops `n` times, stopping at the first failure. */
  function PopN(g: SceneGraph, n: nat): (st: Step)
    decreases n
  {
    if n == 0 then Step(g, [], Ok(()))
    else
      var st1 := Pop(g);
      if st1.result.Err? then st1
      else
        var st2 := PopN(st1.graph, n - 1);
        Step(st2.graph, st1.events + st2.events, st2.result)
  }

  /** On a non-empty stack any pushes succeed and stack the scenes on
      top; as many pops then bring back the stack pushed onto. */
  lemma {:induction false} PushAllStacks(g: SceneGraph, ss: seq<Scene>)
    requires |g.stack| > 0
    ensures PushAll(g, ss).result == Ok(())
    ensures PushAll(g, ss).graph.stack == g.stack + ss
    decreases |ss|
  {
    if |ss| > 0 {
      PushAllStacks(Push(g, ss[0]).graph, ss[1..]);
      assert g.stack + [ss[0]] + ss[1..] == g.stack + ss;
    }
  }

  lemma {:induction false} PopNUnstacks(g: SceneGraph, ss: seq<Scene>)
    requires |g.stack| > 0
    ensures PopN(SceneGraph(g.stack + ss), |ss|).result == Ok(())
    ensures PopN(SceneGraph(g.stack + ss), |ss|).graph == g
    decreases |ss|
  {
    if |ss| > 0 {
      var init := ss[..|ss| - 1];
      var g1 := SceneGraph(g.stack + ss);
      assert (g.stack + ss)[..|g.stack + ss| - 1] == g.stack + init;
      assert Pop(g1).graph == SceneGraph(g.stack + init);
      PopNUnstacks(g, init);
    } else {
      assert g.stack + ss == g.stack;
    }
  }

  lemma PushesThenPops(g: SceneGraph, ss: seq<Scene>)
    requires |g.stack| > 0
    ensures PushAll(g, ss).result == Ok(())
    ensures PopN(PushAll(g, ss).graph, |ss|).result == Ok(())
    ensures PopN(PushAll(g, ss).graph, |ss|).graph == g
  {
    PushAllStacks(g, ss);
    PopNUnstacks(g, ss);
  }
}
