/** Loading the bridge into a simulator process: which threads are created there, and when the caller may try again. */
module Launcher {
  const ERROR_BAD_LENGTH: nat := 24
  const ERROR_PARTIAL_COPY: nat := 299

  datatype Wait = Finished | Pending | Failed | Cancelled

  // What Windows answers, in the order it is asked.
  datatype Answers = Answers(
    opens: bool, sameUser: bool, imageAccepted: bool,
    moduleError: nat, legacyLoaded: bool, mainValid: bool, bridgePresent: bool,
    loaderFound: bool, allocates: bool, writes: bool, loaderCreated: bool, loaderWait: Wait,
    laterModuleError: nat, bridgePresentLater: bool,
    entryFound: bool, entryValid: bool, startCreated: bool, startWait: Wait, exitCodeRead: bool, exitCode: nat)

  datatype Thread = Loader | Start

  // The process is ours, readable, and not running the older add-on.
  predicate Suitable(a: Answers) {
    a.opens && a.sameUser && a.imageAccepted && a.moduleError == 0 && !a.legacyLoaded && a.mainValid
  }

  // A LoadLibrary thread is created only for a missing bridge, and only where a fresh load is allowed.
  predicate Loads(a: Answers, allowFreshLoad: bool) {
    Suitable(a) && !a.bridgePresent && allowFreshLoad && a.loaderFound && a.allocates && a.writes && a.loaderCreated
  }

  // The bridge's module is known in the process.
  predicate Present(a: Answers, allowFreshLoad: bool) {
    || (Suitable(a) && a.bridgePresent)
    || (Loads(a, allowFreshLoad) && a.loaderWait == Finished && a.laterModuleError == 0 && a.bridgePresentLater)
  }

  predicate Starts(a: Answers, allowFreshLoad: bool) {
    Present(a, allowFreshLoad) && a.entryFound && a.entryValid && a.startCreated
  }

  // The entry point ran and said yes.
  predicate Succeeds(a: Answers, allowFreshLoad: bool) {
    Starts(a, allowFreshLoad) && a.startWait == Finished && a.exitCodeRead && a.exitCode == 0
  }

  // The failures that leave nothing behind and may pass by waiting.
  predicate Passing(a: Answers, allowFreshLoad: bool) {
    && a.opens && a.sameUser && a.imageAccepted
    && if a.moduleError != 0 then a.moduleError == 24 || a.moduleError == 299
       else !a.legacyLoaded && (!a.mainValid || (!a.bridgePresent && (!allowFreshLoad || !a.loaderFound)))
  }

  method LoadBridge(a: Answers, allowFreshLoad: bool)
    returns (ok: bool, retryBeforeLoad: bool, loadStarted: bool, threads: seq<Thread>)
    ensures threads == (if Loads(a, allowFreshLoad) then [Loader] else [])
        + (if Starts(a, allowFreshLoad) then [Start] else [])
    ensures loadStarted <==> Loads(a, allowFreshLoad)
    ensures ok <==> Succeeds(a, allowFreshLoad)
    ensures retryBeforeLoad <==> Passing(a, allowFreshLoad)
  {
    loadStarted, threads := false, [];
    if !a.opens || !a.sameUser || !a.imageAccepted {
      return false, false, loadStarted, threads;
    }
    if a.moduleError != 0 {
      return false, a.moduleError == ERROR_BAD_LENGTH || a.moduleError == ERROR_PARTIAL_COPY, loadStarted, threads;
    }
    if a.legacyLoaded {
      return false, false, loadStarted, threads;
    }
    if !a.mainValid {
      return false, true, loadStarted, threads;
    }
    if !a.bridgePresent {
      if !allowFreshLoad || !a.loaderFound {
        return false, true, loadStarted, threads;
      }
      if !a.allocates || !a.writes || !a.loaderCreated {
        return false, false, loadStarted, threads;
      }
      loadStarted, threads := true, threads + [Loader];
      if a.loaderWait != Finished || a.laterModuleError != 0 || !a.bridgePresentLater {
        return false, false, loadStarted, threads;
      }
    }
    if !a.entryFound || !a.entryValid || !a.startCreated {
      return false, false, loadStarted, threads;
    }
    threads := threads + [Start];
    return a.startWait == Finished && a.exitCodeRead && a.exitCode == 0, false, loadStarted, threads;
  }

  // Whoever is told to retry has left no thread behind and has not succeeded.
  lemma RetryLeavesNothing(a: Answers, allowFreshLoad: bool)
    requires Passing(a, allowFreshLoad)
    ensures !Loads(a, allowFreshLoad) && !Starts(a, allowFreshLoad) && !Succeeds(a, allowFreshLoad)
  {
  }

  // Whatever the answers: no LoadLibrary thread where none is allowed, none where the module shows,
  // and success only where it does in the end.
  lemma LoadsAreFresh(a: Answers, allowFreshLoad: bool)
    ensures Loads(a, allowFreshLoad) ==> allowFreshLoad && !a.bridgePresent && a.opens
    ensures Succeeds(a, allowFreshLoad) ==> Present(a, allowFreshLoad)
    ensures Present(a, allowFreshLoad) ==> a.opens
  {
  }
}
