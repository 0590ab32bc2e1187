/** `Task::task_body` and the functions it calls, as the nested loops they are, against the flattened
    control flow of the model. */
module TaskBody {
  import opened DagModel

  /** Having taken the steps in `trace`, the task stands at `c`. */
  ghost predicate At(cfg: Config, t: nat, trace: seq<Control>, c: Control) {
    && Wired(cfg) && t < |cfg.ins| && PcOk(cfg, t, InitControl(cfg, t)) && PcOk(cfg, t, c)
    && Program(cfg, t, InitControl(cfg, t)) == trace + Program(cfg, t, c)
  }

  lemma Take(cfg: Config, t: nat, trace: seq<Control>, c: Control)
    requires At(cfg, t, trace, c) && !c.pc.Done?
    ensures At(cfg, t, trace + [c], Succ(cfg, t, c))
  {
    SuccIsOk(cfg, t, c);
    assert Program(cfg, t, c) == [c] + Program(cfg, t, Succ(cfg, t, c));
  }

  /** Runs the loops of one task and records its steps: exactly the model's program, ending in Done. */
  method Run(cfg: Config, t: nat) returns (trace: seq<Control>)
    requires Wired(cfg) && t < |cfg.ins|
    ensures PcOk(cfg, t, InitControl(cfg, t)) && trace == Program(cfg, t, InitControl(cfg, t))
    ensures |trace| == Left(cfg, t, InitControl(cfg, t))
  {
    trace := [];
    if |cfg.ins[t]| == 0 {
      Take(cfg, t, trace, Control(0, Align));
      trace := trace + [Control(0, Align)];
    }
    for iter := 0 to cfg.activations
      invariant At(cfg, t, trace, Control(iter, LoopHead(cfg, t, iter)))
    {
      trace := LoopBodyBefore(cfg, t, iter, trace);
      Take(cfg, t, trace, Control(iter, Work));
      trace := trace + [Control(iter, Work)];
      trace := LoopBodyAfter(cfg, t, iter, trace);
    }
    assert Program(cfg, t, Control(cfg.activations, Done)) == [];
    ProgramLength(cfg, t, InitControl(cfg, t));
  }

  /** `loop_body_before` with `wait_incoming_messages`. */
  method LoopBodyBefore(cfg: Config, t: nat, iter: nat, before: seq<Control>) returns (trace: seq<Control>)
    requires Wired(cfg) && t < |cfg.ins| && iter < cfg.activations
    requires At(cfg, t, before, Control(iter, LoopHead(cfg, t, iter)))
    ensures At(cfg, t, trace, Control(iter, Work))
  {
    trace := before;
    if |cfg.ins[t]| == 0 {
      Take(cfg, t, trace, Control(iter, StartPush));
      trace := trace + [Control(iter, StartPush)];
    }
    if |cfg.ins[t]| != 0 {
      Take(cfg, t, trace, Control(iter, PopInputs));
      trace := trace + [Control(iter, PopInputs)];
      for i := 0 to |cfg.ins[t]|
        invariant At(cfg, t, trace, Control(iter, if i < |cfg.ins[t]| then Read(i) else Work))
      {
        Take(cfg, t, trace, Control(iter, Read(i)));
        trace := trace + [Control(iter, Read(i))];
      }
    }
  }

  /** `loop_body_after`. */
  method LoopBodyAfter(cfg: Config, t: nat, iter: nat, before: seq<Control>) returns (trace: seq<Control>)
    requires Wired(cfg) && t < |cfg.ins| && iter < cfg.activations
    requires At(cfg, t, before, Succ(cfg, t, Control(iter, Work)))
    ensures At(cfg, t, trace, Control(iter + 1, LoopHead(cfg, t, iter + 1)))
  {
    trace := before;
    for j := 0 to |cfg.outs[t]|
      invariant At(cfg, t, trace,
                   if j < |cfg.outs[t]| then Control(iter, WriteBegin(j))
                   else if j == 0 then Control(iter, StartPop)
                   else AfterOutputs(cfg, t, iter))
    {
      Take(cfg, t, trace, Control(iter, WriteBegin(j)));
      trace := trace + [Control(iter, WriteBegin(j))];
      Take(cfg, t, trace, Control(iter, WriteEnd(j)));
      trace := trace + [Control(iter, WriteEnd(j))];
      Take(cfg, t, trace, Control(iter, PushOut(j)));
      trace := trace + [Control(iter, PushOut(j))];
    }
    if |cfg.outs[t]| == 0 {
      Take(cfg, t, trace, Control(iter, StartPop));
      trace := trace + [Control(iter, StartPop)];
    }
    if |cfg.ins[t]| == 0 {
      Take(cfg, t, trace, Control(iter, PeriodWait));
      trace := trace + [Control(iter, PeriodWait)];
    }
  }

  lemma {:induction false} ProgramLength(cfg: Config, t: nat, c: Control)
    requires Wired(cfg) && t < |cfg.ins| && PcOk(cfg, t, c)
    ensures |Program(cfg, t, c)| == Left(cfg, t, c)
    decreases Left(cfg, t, c)
  {
    if !c.pc.Done? {
      SuccIsOk(cfg, t, c);
      ProgramLength(cfg, t, Succ(cfg, t, c));
    }
  }
}
