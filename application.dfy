/**
 * The Spring Boot application: the command line picks which feeds run,
 * and every WebSocket client that connects first receives the map access
 * key, then is attached to the selected feeds.
 */
module Application {
  import opened Wrappers
  import opened Transport
  import WsPacket
  import Lab1
  import Lab2

  const DefaultLab: string := "both"

  /** The lab the command line selects: "1" and "2" are kept, anything else is "both". */
  function SelectLab(args: seq<string>): string
  {
    var lab := if |args| > 0 then args[0] else DefaultLab;
    if lab == "1" || lab == "2" then lab else DefaultLab
  }

  /** The selection is one of the three labs, and selecting it again changes nothing. */
  lemma SelectLabChoices(args: seq<string>)
    ensures SelectLab(args) in {"1", "2", "both"}
    ensures |args| == 0 ==> SelectLab(args) == "both"
    ensures |args| > 0 && (args[0] == "1" || args[0] == "2") ==> SelectLab(args) == args[0]
    ensures |args| > 0 && args[0] != "1" && args[0] != "2" ==> SelectLab(args) == "both"
    ensures SelectLab([SelectLab(args)]) == SelectLab(args)
  {
  }

  predicate Lab1Selected(lab: string) {
    lab == "1" || lab == "both"
  }

  predicate Lab2Selected(lab: string) {
    lab == "2" || lab == "both"
  }

  /** What the connect handler did after sending the key, in order. */
  datatype Step = AttachedLab1 | Exited(status: int) | AttachedLab2

  /**
   * The decisions of afterConnectionEstablished: nothing when the key
   * could not be sent; then Lab1 when selected, where a failure to obtain
   * it ends the process with status 1; then Lab2 when selected.
   */
  function Plan(lab: string, keySent: bool, lab1Available: bool): seq<Step>
  {
    if !keySent then []
    else if Lab1Selected(lab) && !lab1Available then [Exited(1)]
    else (if Lab1Selected(lab) then [AttachedLab1] else []) + (if Lab2Selected(lab) then [AttachedLab2] else [])
  }

  /**
   * Each feed is attached exactly when it is selected and the handler got
   * that far; Lab1 comes before Lab2; the process exits exactly when Lab1
   * is selected and cannot be obtained, and then nothing follows.
   */
  lemma PlanDecisions(lab: string, keySent: bool, lab1Available: bool)
    ensures var p := Plan(lab, keySent, lab1Available);
      && (!keySent ==> p == [])
      && (AttachedLab1 in p <==> keySent && Lab1Selected(lab) && lab1Available)
      && (Exited(1) in p <==> keySent && Lab1Selected(lab) && !lab1Available)
      && (AttachedLab2 in p <==> keySent && Lab2Selected(lab) && (Lab1Selected(lab) ==> lab1Available))
      && (forall i, j | 0 <= i < |p| && 0 <= j < |p| && p[i] == AttachedLab1 && p[j] == AttachedLab2 :: i < j)
      && (forall i | 0 <= i < |p| && p[i].Exited? :: i == |p| - 1)
  {
  }

  /** With the selection the command line makes, at least one feed is attached once the key is sent. */
  lemma SomeFeedAttached(args: seq<string>, lab1Available: bool)
    ensures var p := Plan(SelectLab(args), true, lab1Available);
      p != []
  {
  }

  /**
   * The application's static state: the command line and the selected lab,
   * both unset (the empty string stands for null) until commandLineRunner.
   */
  class Application {
    var args: seq<string>
    var lab: string

    constructor ()
      ensures args == [] && lab == ""
    {
      args := [];
      lab := "";
    }

    /** commandLineRunner: keeps the arguments and selects the lab. */
    method CommandLineRunner(args: seq<string>)
      modifies this
      ensures this.args == args
      ensures lab == SelectLab(args)
    {
      this.args := args;
      lab := if |args| > 0 then args[0] else DefaultLab;
      if lab != "1" && lab != "2" {
        lab := DefaultLab;
      }
    }

    /**
     * MyBinaryHandler.afterConnectionEstablished. `lab1` is the Lab1
     * singleton, null when getInstance threw; `putFails` says whether its
     * "start" put throws. `lab2` is the Lab2 singleton. The key frame is
     * the first frame attempted; the new client then follows Plan.
     */
    method AfterConnectionEstablished(session: Session, mapKey: string, lab1: Lab1.Feed?, putFails: bool,
                                      lab2: Lab2.Replay) returns (steps: seq<Step>)
      requires lab == "1" || lab == "2" || lab == "both"
      requires lab1 != null ==> lab1.Valid()
      requires lab2.Valid()
      modifies session, lab1, lab2
      ensures steps == Plan(lab, old(session.open), lab1 != null)
      ensures session.frames == old(session.frames) + if old(session.open) then [Frame("m0," + mapKey, !session.ioFaulty)] else []
      ensures session.open == old(session.open) && session.closedWith == old(session.closedWith)
      ensures lab1 != null ==> lab1.Valid() && lab1.disposed == old(lab1.disposed)
      ensures lab1 != null && AttachedLab1 !in steps ==> unchanged(lab1)
      ensures lab1 != null && AttachedLab1 in steps && putFails ==>
        lab1.clients == old(lab1.clients) && lab1.supplierQueue == old(lab1.supplierQueue)
      ensures lab1 != null && AttachedLab1 in steps && !putFails ==>
        && lab1.supplierQueue == old(lab1.supplierQueue) + ["start"]
        && lab1.clients == old(lab1.clients)[session.id := Disposable(old(lab1.nextSerial))]
      ensures lab2.Valid() && lab2.disposed == old(lab2.disposed)
      ensures AttachedLab2 !in steps ==> unchanged(lab2)
      ensures AttachedLab2 in steps ==>
        && lab2.subscriptions == old(lab2.subscriptions)[session.id := Disposable(old(lab2.nextSerial))]
        && lab2.timeDelimiter == old(lab2.timeDelimiter)[session.id := None]
    {
      var ok := WsPacket.Send(session, "m0," + mapKey);
      if !ok {
        return [];
      }
      steps := [];
      if lab == "1" || lab == "both" {
        if lab1 == null {
          return [Exited(1)];
        }
        lab1.SubscribeClient(session, putFails);
        steps := steps + [AttachedLab1];
      }
      if lab == "2" || lab == "both" {
        lab2.SubscribeClient(session);
        steps := steps + [AttachedLab2];
      }
    }
  }
}
