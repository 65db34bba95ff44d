/** The wizard's pages in install order, and their done markers. */
module WizardSteps {

  datatype Step =
    | Preflight | Site | Ssh | Docker | Postgres | Neo4j | Ollama | Hivemq | Telemetry | DeviceApi
    | DerControlApi | IndustrialGateway | Hmi | Https | Mlflow | AnalystModel | AnalystServer
    | Prometheus | Grafana | SshLockdown

  const STEPS: seq<Step> := [
    Preflight, Site, Ssh, Docker, Postgres, Neo4j, Ollama, Hivemq, Telemetry, DeviceApi,
    DerControlApi, IndustrialGateway, Hmi, Https, Mlflow, AnalystModel, AnalystServer,
    Prometheus, Grafana, SshLockdown]

  /** The done pages among `steps`, in that order. */
  function DoneAmong(steps: seq<Step>, done: set<Step>): seq<Step> {
    if steps == [] then []
    else (if steps[0] in done then [steps[0]] else []) + DoneAmong(steps[1..], done)
  }

  lemma {:induction false} DoneAmongIs(steps: seq<Step>, done: set<Step>)
    ensures forall s :: s in DoneAmong(steps, done) <==> s in steps && s in done
    ensures |DoneAmong(steps, done)| == |steps| <==> forall s :: s in steps ==> s in done
    ensures |DoneAmong(steps, done)| <= |steps|
  {
    if steps != [] {
      DoneAmongIs(steps[1..], done);
      assert steps == [steps[0]] + steps[1..];
    }
  }

  lemma EveryStepIsListed(s: Step)
    ensures s in STEPS
  {
    match s {
      case Preflight => assert STEPS[0] == s;
      case Site => assert STEPS[1] == s;
      case Ssh => assert STEPS[2] == s;
      case Docker => assert STEPS[3] == s;
      case Postgres => assert STEPS[4] == s;
      case Neo4j => assert STEPS[5] == s;
      case Ollama => assert STEPS[6] == s;
      case Hivemq => assert STEPS[7] == s;
      case Telemetry => assert STEPS[8] == s;
      case DeviceApi => assert STEPS[9] == s;
      case DerControlApi => assert STEPS[10] == s;
      case IndustrialGateway => assert STEPS[11] == s;
      case Hmi => assert STEPS[12] == s;
      case Https => assert STEPS[13] == s;
      case Mlflow => assert STEPS[14] == s;
      case AnalystModel => assert STEPS[15] == s;
      case AnalystServer => assert STEPS[16] == s;
      case Prometheus => assert STEPS[17] == s;
      case Grafana => assert STEPS[18] == s;
      case SshLockdown => assert STEPS[19] == s;
    }
  }

  /** One marker per page whose verification has passed. */
  class StepTracker {
    var done: set<Step>

    constructor ()
      ensures done == {}
    {
      done := {};
    }

    method MarkDone(step: Step)
      modifies this
      ensures done == old(done) + {step}
    {
      done := done + {step};
    }

    /** The pages whose marker exists, in the order the wizard shows them. */
    method Completed() returns (completed: seq<Step>)
      ensures completed == DoneAmong(STEPS, done)
      ensures forall s :: s in completed <==> s in done
    {
      completed := [];
      for i := 0 to |STEPS|
        invariant completed + DoneAmong(STEPS[i..], done) == DoneAmong(STEPS, done)
      {
        assert STEPS[i..][1..] == STEPS[i + 1..];
        completed := completed + if STEPS[i] in done then [STEPS[i]] else [];
      }
      DoneAmongIs(STEPS, done);
      forall s: Step ensures s in STEPS { EveryStepIsListed(s); }
    }

    /** The whole wizard is finished exactly when every page is done. */
    method AllDone() returns (finished: bool)
      ensures finished <==> forall s: Step :: s in done
    {
      finished := forall s | s in STEPS :: s in done;
      forall s: Step ensures s in STEPS { EveryStepIsListed(s); }
    }
  }
}
