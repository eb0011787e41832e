/**
 * The registry of pipeline runners: one runner per pipeline id, created the
 * first time the id is asked for and reused ever after. Start, stop and
 * offset reset are handed to the id's runner.
 *
 * A runner is an opaque object. It records the commands it was given; what it
 * answers is decided by code outside this model, so each command takes the
 * runner's answer as a parameter.
 */
module PipelineManager {
  import opened Wrappers

  /** What a runner reports about its pipeline after a start or a stop. */
  datatype PipelineState = PipelineState(pipelineId: string, status: string)

  /** A command handed to a runner. */
  datatype Command = StartCmd(runtimeParameters: map<string, string>) | StopCmd | ResetOffsetCmd

  /** The map after an insert-if-absent: an existing entry wins over `v`. */
  function InsertIfAbsent<K, V(==)>(m: map<K, V>, k: K, v: V): (r: map<K, V>)
    ensures r.Keys == m.Keys + {k}
    ensures r[k] == (if k in m then m[k] else v)
    ensures forall j | j in m :: r[j] == m[j]
  {
    if k in m then m else m[k := v]
  }

  /** A second insert-if-absent of the same key changes nothing, whatever value it offers. */
  lemma InsertIfAbsentIdempotent<K, V>(m: map<K, V>, k: K, v: V, w: V)
    ensures InsertIfAbsent(InsertIfAbsent(m, k, v), k, w) == InsertIfAbsent(m, k, v)
  {
    var once := InsertIfAbsent(m, k, v);
    assert k in once;
  }

  /** `n` keeps every entry of `m`: nothing removed, nothing replaced. */
  predicate Extends<K, V(==)>(m: map<K, V>, n: map<K, V>)
  {
    forall j | j in m :: j in n && n[j] == m[j]
  }

  /** Inserting if absent only ever extends a map, and so does any chain of such inserts. */
  lemma InsertIfAbsentExtends<K, V>(m: map<K, V>, k: K, v: V, n: map<K, V>)
    requires Extends(InsertIfAbsent(m, k, v), n)
    ensures Extends(m, n)
    ensures k in n
  {
    var mid := InsertIfAbsent(m, k, v);
    assert k in mid;
    forall j | j in m
      ensures j in n && n[j] == m[j]
    {
      assert j in mid && mid[j] == m[j];
    }
  }

  /** The runner of one pipeline, opaque apart from its id and the commands it has received. */
  class Runner {
    const pipelineId: string
    var received: seq<Command>

    constructor (id: string)
      ensures pipelineId == id && received == []
    {
      pipelineId := id;
      received := [];
    }

    method StartPipeline(runtimeParameters: map<string, string>, reply: Result<PipelineState, string>)
      returns (r: Result<PipelineState, string>)
      modifies this
      ensures received == old(received) + [StartCmd(runtimeParameters)]
      ensures r == reply
    {
      received := received + [StartCmd(runtimeParameters)];
      r := reply;
    }

    method StopPipeline(reply: Result<PipelineState, string>) returns (r: Result<PipelineState, string>)
      modifies this
      ensures received == old(received) + [StopCmd]
      ensures r == reply
    {
      received := received + [StopCmd];
      r := reply;
    }

    method ResetOffset(reply: Option<string>) returns (err: Option<string>)
      modifies this
      ensures received == old(received) + [ResetOffsetCmd]
      ensures err == reply
    {
      received := received + [ResetOffsetCmd];
      err := reply;
    }
  }

  /**
   * The manager. `creationError` stands for the outcome of building a new
   * runner (which reads the pipeline's stored definition): `Some(e)` makes the
   * construction fail with `e`, which the manager does not survive; it is
   * reported here as `Err(e)` with nothing inserted.
   */
  class Manager {
    var runnerMap: map<string, Runner>

    /** Every runner is filed under its own pipeline id. */
    predicate Valid()
      reads this
    {
      forall id | id in runnerMap :: runnerMap[id].pipelineId == id
    }

    /** NewManager: a manager with no runners. */
    constructor ()
      ensures Valid()
      ensures runnerMap == map[]
    {
      runnerMap := map[];
    }

    method GetRunner(pipelineId: string, creationError: Option<string>) returns (r: Result<Runner, string>)
      requires Valid()
      modifies this
      ensures Valid()
      ensures pipelineId in old(runnerMap) ==> r == Ok(old(runnerMap)[pipelineId]) && runnerMap == old(runnerMap)
      ensures pipelineId !in old(runnerMap) && creationError.Some? ==>
        r == Err(creationError.value) && runnerMap == old(runnerMap)
      ensures pipelineId !in old(runnerMap) && creationError.None? ==>
        && r.Ok? && fresh(r.value) && r.value.pipelineId == pipelineId && r.value.received == []
        && runnerMap == InsertIfAbsent(old(runnerMap), pipelineId, r.value)
      ensures Extends(old(runnerMap), runnerMap)
      ensures r.Ok? ==> pipelineId in runnerMap && runnerMap[pipelineId] == r.value
    {
      if pipelineId !in runnerMap {
        if creationError.Some? {
          return Err(creationError.value);
        }
        var runner := new Runner(pipelineId);
        runnerMap := runnerMap[pipelineId := runner];
      }
      r := Ok(runnerMap[pipelineId]);
    }

    method StartPipeline(pipelineId: string, runtimeParameters: map<string, string>,
                         creationError: Option<string>, reply: Result<PipelineState, string>)
      returns (r: Result<PipelineState, string>)
      requires Valid()
      modifies this, runnerMap.Values
      ensures Valid() && Extends(old(runnerMap), runnerMap)
      ensures pipelineId !in old(runnerMap) && creationError.Some? ==>
        r == Err(creationError.value) && runnerMap == old(runnerMap)
      ensures pipelineId in old(runnerMap) || creationError.None? ==>
        && pipelineId in runnerMap && r == reply
        && runnerMap[pipelineId].received == old(if pipelineId in runnerMap then runnerMap[pipelineId].received else []) + [StartCmd(runtimeParameters)]
        && runnerMap == InsertIfAbsent(old(runnerMap), pipelineId, runnerMap[pipelineId])
      ensures pipelineId !in old(runnerMap) && creationError.None? ==> fresh(runnerMap[pipelineId])
      ensures forall id | id in old(runnerMap) && id != pipelineId :: unchanged(old(runnerMap)[id])
    {
      var runner := GetRunner(pipelineId, creationError);
      if runner.Err? {
        return Err(runner.error);
      }
      r := runner.value.StartPipeline(runtimeParameters, reply);
    }

    method StopPipeline(pipelineId: string, creationError: Option<string>, reply: Result<PipelineState, string>)
      returns (r: Result<PipelineState, string>)
      requires Valid()
      modifies this, runnerMap.Values
      ensures Valid() && Extends(old(runnerMap), runnerMap)
      ensures pipelineId !in old(runnerMap) && creationError.Some? ==>
        r == Err(creationError.value) && runnerMap == old(runnerMap)
      ensures pipelineId in old(runnerMap) || creationError.None? ==>
        && pipelineId in runnerMap && r == reply
        && runnerMap[pipelineId].received == old(if pipelineId in runnerMap then runnerMap[pipelineId].received else []) + [StopCmd]
        && runnerMap == InsertIfAbsent(old(runnerMap), pipelineId, runnerMap[pipelineId])
      ensures pipelineId !in old(runnerMap) && creationError.None? ==> fresh(runnerMap[pipelineId])
      ensures forall id | id in old(runnerMap) && id != pipelineId :: unchanged(old(runnerMap)[id])
    {
      var runner := GetRunner(pipelineId, creationError);
      if runner.Err? {
        return Err(runner.error);
      }
      r := runner.value.StopPipeline(reply);
    }

    method ResetOffset(pipelineId: string, creationError: Option<string>, reply: Option<string>)
      returns (err: Option<string>)
      requires Valid()
      modifies this, runnerMap.Values
      ensures Valid() && Extends(old(runnerMap), runnerMap)
      ensures pipelineId !in old(runnerMap) && creationError.Some? ==>
        err == creationError && runnerMap == old(runnerMap)
      ensures pipelineId in old(runnerMap) || creationError.None? ==>
        && pipelineId in runnerMap && err == reply
        && runnerMap[pipelineId].received == old(if pipelineId in runnerMap then runnerMap[pipelineId].received else []) + [ResetOffsetCmd]
        && runnerMap == InsertIfAbsent(old(runnerMap), pipelineId, runnerMap[pipelineId])
      ensures pipelineId !in old(runnerMap) && creationError.None? ==> fresh(runnerMap[pipelineId])
      ensures forall id | id in old(runnerMap) && id != pipelineId :: unchanged(old(runnerMap)[id])
    {
      var runner := GetRunner(pipelineId, creationError);
      if runner.Err? {
        return Some(runner.error);
      }
      err := runner.value.ResetOffset(reply);
    }
  }

  /** Asking twice for the same id gives the same runner object, and the second call changes nothing. */
  method GetRunnerTwice(m: Manager, pipelineId: string) returns (first: Runner, second: Runner)
    requires m.Valid()
    modifies m
    ensures first == second
    ensures pipelineId in m.runnerMap && m.runnerMap[pipelineId] == first
    ensures Extends(old(m.runnerMap), m.runnerMap) && m.runnerMap.Keys == old(m.runnerMap).Keys + {pipelineId}
  {
    var r1 := m.GetRunner(pipelineId, None);
    var before := m.runnerMap;
    var r2 := m.GetRunner(pipelineId, None);
    assert m.runnerMap == before;
    first, second := r1.value, r2.value;
  }
}
