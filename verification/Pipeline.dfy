/** From a parsed module to a running one: what the compiler writes is an image the interpreter
    can run, for the structured program the module's bodies spell out. */
module Pipeline {
  import opened Wasm
  import opened Validator
  import opened Bytecode
  import opened Source
  import opened Machine
  import opened Nesting
  import opened Writer
  import opened Arena
  import opened ModuleWriter
  import opened Layout
  import opened Correctness

  /** Every accepted module is a program of the structured semantics. */
  lemma {:induction false} StructuredBodies(m: Module, k: nat) returns (bodies: seq<Instrs>)
    requires AcceptsFirst(m, k)
    ensures |bodies| == k && forall i :: 0 <= i < k ==> IsBody(m.funcs[i].body, bodies[i])
    decreases k
  {
    hide Accepts, IsBody;
    bodies := [];
    if k > 0 {
      bodies := StructuredBodies(m, k - 1);
      AcceptedIsStructured(m, m.funcs[k - 1]);
      var c :| IsBody(m.funcs[k - 1].body, c);
      bodies := bodies + [c];
    }
  }

  ghost predicate LoadedFor(m: Module, bodies: seq<Instrs>, limit: nat,
      host: (nat, seq<Value>, Store) -> HostResult, image: Image)
  {
    ProgramOk(Program(m, bodies, limit, host)) && ImageOk(Program(m, bodies, limit, host), image)
  }

  /** Compiles a module. The image is right for any host that respects the types of the globals, and
      for any budget. */
  method Load(m: Module, w: BitcodeWriter, alloc: GrowableAllocator, codeBase: nat, align: nat)
    returns (image: Option<Image>, ghost bodies: seq<Instrs>)
    requires AllSizesOk(m) && Laid(m, w, alloc, codeBase, align) && w.baseOffset == 0
    modifies alloc, w, w.arena
    ensures image.Some? ==>
              forall limit: nat, host | HostKeeps(m, host) :: LoadedFor(m, bodies, limit, host, image.value)
    ensures image.None? ==>
              exists k: nat :: k < |m.funcs| && AcceptsFirst(m, k) &&
                (!Accepts(m, m.funcs[k]) || BodyBytes(m.funcs[k]) > RoomLeft(m, alloc.capacity, codeBase, Base(m, k)))
  {
    hide Accepts, IsBody, ModuleCode, Consumed;
    bodies := [];
    var r := WriteCodeOut(m, w, alloc, codeBase, align);
    if !r.Written? {
      assert AcceptsFirst(m, r.func);
      return None, bodies;
    }
    image := Some(Image(w.arena[..w.baseOffset], r.starts));
    bodies := StructuredBodies(m, |m.funcs|);
  }

  /** The smallest function with a result. */
  function Answer(): FuncDecl {
    FuncDecl(FuncType([], Some(I32)), [], [Plain(Const(VI32(42))), End], [2, 1], 0)
  }

  function AnswerState(): State {
    State([Ctrl(-1, FuncBody, Some(I32))], Operands([], [Seg(false, [Known(I32)])], 1))
  }

  lemma AnswerPushed(m: Module)
    ensures Run(m, Answer(), 1) == Some(AnswerState())
  {
    hide Addr, EntryDepth, PopScope;
    var fd := Answer();
    var s0 := Init(fd);
    assert Run(m, fd, 0) == Some(s0);
    assert PopTypes(s0.ops, []) == Some(s0.ops);
    var none: seq<Tag> := [];
    assert none + [Known(I32)] == [Known(I32)];
    assert Top(s0.ops) == Seg(false, none) && DepthOf(s0.ops) == 0;
    assert WithTop(s0.ops, Seg(false, [Known(I32)])).segs == AnswerState().ops.segs;
    assert PushTag(s0.ops, Known(I32)) == Some(AnswerState().ops);
  }

  lemma AnswerAccepted(m: Module)
    ensures Accepts(m, Answer())
  {
    AnswerPushed(m);
    assert Run(m, Answer(), 2) == Step(m, Answer(), AnswerState(), End, 1);
    assert PopScope(AnswerState().ops, Some(I32)).Some?;
  }

  /** What the theorems about running code assume can be met. */
  lemma HypothesesMet() returns (p: Program, image: Image, store: Store)
    ensures EntryOk(p, 0, [], store) && ImageOk(p, image)
  {
    hide Accepts, Run;
    var fd := Answer();
    var m := Module([], [fd], [], false, 16);
    AnswerAccepted(m);
    p := Program(m, [ICons(Basic(fd.body[0]), INil)], 1, (f, args, st) => HostTrap);
    image := Image(ModuleCode(m, 1), [0]);
    store := Store([], [], []);
    Single(fd.body, 0);
    Empty(fd.body, 1);
    Cons(fd.body, 0, Basic(fd.body[0]), INil);
    assert IsBody(fd.body, p.bodies[0]);
  }
}
