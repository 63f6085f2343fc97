// The two module-level caches as the runner updates them, dictionary by dictionary.
module SessionCache {
  import opened Basics
  import opened Sessions

  class Caches<W> {
    const ser: Serializer<W>
    var workflows: map<SessionId, W>
    var steps: map<SessionId, Steps>

    constructor (ser: Serializer<W>)
      ensures this.ser == ser && Contents() == Store(map[], map[])
    {
      this.ser := ser;
      workflows, steps := map[], map[];
    }

    function Contents(): Store<W>
      reads this
    {
      Store(workflows, steps)
    }

    /** Completes a dictionary with the specs and hands it to `from_dict`. */
    method RestoreFrom(specs: Specs, state: StateArg, doc: Doc) returns (workflow: Option<W>, left: StateArg)
      requires specs.Specs?
      ensures workflow == ser.fromDict(WithSpecs(doc, specs)).workflow
      ensures left == if state.Plain? then Plain(ser.fromDict(WithSpecs(doc, specs)).left) else state
    {
      var reading := ser.fromDict(WithSpecs(doc, specs));
      workflow, left := reading.workflow, state;
      if state.Plain? {
        left := Plain(reading.left);
      }
    }

    /** `hydrate_workflow`. The result is None when it raises; `left` is the state argument as the
        call leaves it. */
    method HydrateWorkflow(specs: Specs, state: StateArg, sid: Option<SessionId>)
      returns (workflow: Option<W>, left: StateArg)
      modifies `workflows
      ensures match Hydrate(ser, old(workflows), specs, state, sid)
              case Hydrated(w, cache, s) => workflow == Some(w) && workflows == cache && left == s
              case HydrationRaised(s) => workflow == None && workflows == old(workflows) && left == s
    {
      workflow, left := None, state;
      if Truthy(sid) && state.NoState? && sid.value in workflows {
        return Some(workflows[sid.value]), state;
      }
      if Truthy(sid) && IsTruthy(state) && sid.value in workflows {
        var cached := workflows[sid.value];
        var doc := Decoded(state);
        if doc.None? {
          return;
        }
        if doc.value != AsDoc(ser.toDict(cached)) {
          if specs.BadSpecs? {
            return;
          }
          workflow, left := RestoreFrom(specs, state, doc.value);
          if workflow.Some? {
            workflows := workflows[sid.value := workflow.value];
          }
          return;
        }
        return Some(cached), state;
      }
      if specs.BadSpecs? {
        return;
      }
      if !IsTruthy(state) || (state.Plain? && IsMinimal(state.doc)) {
        workflow := ser.create(specs.process, specs.subprocesses);
      } else {
        var doc := Decoded(state);
        if doc.None? {
          return;
        }
        workflow, left := RestoreFrom(specs, state, doc.value);
      }
      if workflow.Some? && Truthy(sid) {
        workflows := workflows[sid.value := workflow.value];
      }
    }

    /** The part of `build_response` that stores the step and returns its index. */
    method StoreStep(workflow: W, sid: Option<SessionId>) returns (response: Response)
      modifies `steps
      ensures Contents() == RecordStep(ser, old(Contents()), sid, workflow)
      ensures response == LastStep(Contents(), sid)
    {
      if !Truthy(sid) {
        return NoSession;
      }
      if sid.value !in steps {
        steps := steps[sid.value := []];
      }
      steps := steps[sid.value := steps[sid.value] + [Some(State(ser, workflow))]];
      var n := |steps[sid.value]|;
      if n > STEP_HISTORY_CAP {
        steps := steps[sid.value := steps[sid.value][n - STEP_HISTORY_CAP - 1 := None]];
      }
      return StepIdx(n - 1);
    }

    /** One attempt of `build_response`, which may raise before or after it stores the step. */
    method RespondTo(workflow: W, sid: Option<SessionId>, reply: Reply) returns (response: Response)
      modifies `steps
      ensures var r := Respond(ser, old(Contents()), sid, workflow, reply);
              Contents() == r.store && response == r.response
    {
      if reply.FailsBeforeStep? {
        return ErrorMessage;
      }
      response := StoreStep(workflow, sid);
      if reply.FailsAfterStep? {
        response := ErrorMessage;
      }
    }

    /** Restores the state of a recorded step and hydrates from it. */
    method JumpAndHydrate(specs: Specs, state: StateArg, sid: Option<SessionId>, jump: Option<int>)
      returns (workflow: Option<W>)
      modifies this
      ensures var h := Hydrate(ser, old(workflows), specs, JumpState(old(Contents()), state, sid, jump), sid);
              && steps == WriteBack(old(Contents()), sid, jump, h.state).steps
              && workflow == (if h.Hydrated? then Some(h.workflow) else None)
              && workflows == (if h.Hydrated? then h.cache else old(workflows))
    {
      hide Hydrate;
      var current := state;
      var target := JumpTarget(Contents(), sid, jump);
      if target.Some? {
        var step := steps[sid.value][target.value];
        current := if step.None? then NoState else Plain(step.value);
      }
      var left;
      workflow, left := HydrateWorkflow(specs, current, sid);
      if target.Some? && left.Plain? {
        steps := steps[sid.value := steps[sid.value][target.value := Some(left.doc)]];
      }
    }

    /** `advance_workflow`; `engine` says what the workflow does and how the responses fare. */
    method AdvanceWorkflow(
        specs: Specs, state: StateArg, sid: Option<SessionId>, jump: Option<int>, engine: W -> Progress<W>)
      returns (response: Response)
      modifies this
      ensures var r := Advance(ser, old(Contents()), specs, state, sid, jump, engine);
              Contents() == r.store && response == r.response
    {
      hide Hydrate, Respond, WriteBack, JumpState;
      var workflow := JumpAndHydrate(specs, state, sid, jump);
      if workflow.None? {
        return HydrationError;
      }
      var p := engine(workflow.value);
      if Truthy(sid) {
        workflows := workflows[sid.value := p.workflow];
      }
      if !p.raised {
        response := RespondTo(p.workflow, sid, p.first);
        if p.first.Sent? {
          return;
        }
      }
      response := RespondTo(p.workflow, sid, p.second);
    }

    method TruncateStepHistory(sid: Option<SessionId>, idx: Option<int>) returns (removed: nat)
      modifies `steps
      ensures (Contents(), removed) == Truncate(old(Contents()), sid, idx)
    {
      if Truthy(sid) && sid.value in steps {
        var history := steps[sid.value];
        if idx.Some? && 0 <= idx.value < |history| {
          steps := steps[sid.value := history[..idx.value + 1]];
          return |history| - idx.value - 1;
        }
      }
      return 0;
    }

    method ClearWorkflowCache(sid: Option<SessionId>) returns (count: nat)
      modifies this
      ensures (Contents(), count) == Clear(old(Contents()), sid)
    {
      hide Drop;
      if Truthy(sid) {
        count := 0;
        if sid.value in workflows {
          workflows := Drop(workflows, sid.value);
          count := count + 1;
        } else {
          DropMissing(workflows, sid.value);
        }
        if sid.value in steps {
          steps := Drop(steps, sid.value);
          count := count + 1;
        } else {
          DropMissing(steps, sid.value);
        }
      } else {
        count := |workflows| + |steps|;
        workflows, steps := map[], map[];
      }
    }
  }
}
