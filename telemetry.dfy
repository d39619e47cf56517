/** The experiment-tracking calls (backend/app/mlflow_logger.py): `start_run`
    opens a run named after its experiment and logs its parameters, `end_run`
    logs the metrics and artifacts and closes the run. Only the calls and their
    arguments are kept, as a ghost trace; the tracking server is not modelled. */
module Telemetry {

  /** A logged parameter value. `PModel` stands for the chat-model object
      `start_run` receives, identified by its model name and temperature. */
  datatype Param =
    | PStr(s: string)
    | PInt(i: int)
    | PModel(modelName: string, temperature: real)
    | PReal(r: real)

  /** One outward call, in the order it was issued. `AgentInvoke` marks the call
      into the reasoning loop, whose place relative to the run matters. */
  datatype Event =
    | StartRun(name: string, params: map<string, Param>)
    | AgentInvoke(query: string, recursionLimit: nat)
    | EndRun(metrics: map<string, real>, artifacts: map<string, string>)

  /** The process-wide tracker the two helpers talk to. */
  class Tracker {
    ghost var events: seq<Event>

    constructor ()
      ensures events == []
    {
      events := [];
    }

    /** `start_run(name, params)`. */
    method LogStartRun(name: string, params: map<string, Param>)
      modifies this
      ensures events == old(events) + [StartRun(name, params)]
    {
      events := events + [StartRun(name, params)];
    }

    /** `agent.invoke(..., config={"recursion_limit": limit})` being issued. */
    method LogInvoke(query: string, recursionLimit: nat)
      modifies this
      ensures events == old(events) + [AgentInvoke(query, recursionLimit)]
    {
      events := events + [AgentInvoke(query, recursionLimit)];
    }

    /** `end_run(metrics, artifacts)`. */
    method LogEndRun(metrics: map<string, real>, artifacts: map<string, string>)
      modifies this
      ensures events == old(events) + [EndRun(metrics, artifacts)]
    {
      events := events + [EndRun(metrics, artifacts)];
    }
  }
}
