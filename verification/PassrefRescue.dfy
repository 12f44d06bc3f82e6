/** Expansion on top of the store protocol: the text that expansion puts into a tool call is the session's own. */
module PassrefRescue {
  import opened Prelude
  import J = Json
  import P = Passref
  import G = PassrefGuarantees
  import opened RescueState
  import opened RescueFetch
  import opened RescueProtocol

  function OptionChars(text: Option<string>): Option<J.Text> {
    if text.None? then None else Some(P.Chars(text.value))
  }

  /** The store answers whether the session references a blob from the state `s`, and what the blob holds from `t`. */
  ghost predicate Answers(store: P.Store, s: Sys, t: Sys, session: SessionKey) {
    forall handle: Handle ::
      && store.references(P.Chars(handle), P.Chars(session)) == SessionReferences(s.db, s.disk.files, session, handle)
      && store.hasBlob(P.Chars(handle)) == HasBlob(t.disk.files, handle)
      && store.blobText(P.Chars(handle)) == OptionChars(BlobText(t.disk.files, handle))
  }

  /** The n-th handle is checked after the steps `before` and read after the steps `between`, all of them in the course of
      `steps`.  Writers and readers may do anything in between; bytes change from outside at other moments only. */
  ghost predicate AnswersDuring(store: P.Store, start: Files, steps: seq<Step>, before: seq<Step>, between: seq<Step>,
                                session: SessionKey)
  {
    && before + between <= steps
    && (forall step :: step in between ==> !step.Corrupt?)
    && Answers(store, Run(Init(start), before), Run(Run(Init(start), before), between), session)
  }

  ghost predicate AlwaysAnswers(stores: P.Stores, start: Files, steps: seq<Step>, before: nat -> seq<Step>,
                                between: nat -> seq<Step>, session: SessionKey)
  {
    forall n: nat :: AnswersDuring(stores(n), start, steps, before(n), between(n), session)
  }

  function HandleOf(id: J.Text): (handle: Handle)
    requires G.IsId(id)
    ensures P.Chars(handle) == id && |handle| == HANDLE_LENGTH
  {
    seq(|id|, k requires 0 <= k < |id| => id[k] as char)
  }

  /** Without outside changes, a registered file that is absent or right stays so. */
  lemma {:induction false} AgreementStays(s: Sys, steps: seq<Step>, handle: Handle)
    requires Inv(s) && handle in s.db.blobs && Agrees(s.db, s.disk.files, handle)
    requires forall step :: step in steps ==> !step.Corrupt?
    ensures var t := Run(s, steps); Inv(t) && handle in t.db.blobs && Agrees(t.db, t.disk.files, handle)
    decreases |steps|
  {
    if steps != [] {
      assert steps[0] in steps && forall step :: step in steps[1..] ==> step in steps;
      StepOk(s, steps[0]);
      AgreementStep(s, steps[0], handle);
      AgreementStays(After(s, steps[0]), steps[1..], handle);
    }
  }

  lemma AgreementStep(s: Sys, step: Step, handle: Handle)
    requires Inv(s) && handle in s.db.blobs && Agrees(s.db, s.disk.files, handle) && !step.Corrupt?
    ensures var t := After(s, step); handle in t.db.blobs && Agrees(t.db, t.disk.files, handle)
  {
    StepOk(s, step);
    if step.WriteStep? && s.tx.Some? {
      assert TxOk(s, s.tx.value);
      assert handle in s.tx.value.db.blobs;
    }
  }

  /** While writers, sweeps and readers go on, every blob text that an expansion inserts is the beginning of the one text
      that the requesting session itself put under that handle. */
  lemma ExpansionIsOwnPut(start: Files, steps: seq<Step>, stores: P.Stores, before: nat -> seq<Step>, between: nat -> seq<Step>,
                          config: P.Config, session: SessionKey, args: J.Value, k: nat) returns (handle: Handle, text: string)
    requires AlwaysAnswers(stores, start, steps, before, between, session)
    requires var outs := P.ExpandTree(P.Env(stores, config, P.Chars(session), P.PluginMarkers()), args, P.OPENED).outs;
             k < |outs| && outs[k].Blob?
    ensures var s := Run(Init(start), steps);
            var o := P.ExpandTree(P.Env(stores, config, P.Chars(session), P.PluginMarkers()), args, P.OPENED).outs[k];
            && P.Chars(handle) == o.id
            && (session, handle, Utf8(text)) in s.puts
            && (forall c :: c in s.puts && c.1 == handle ==> c.2 == Utf8(text))
            && o.content <= P.Chars(text)
  {
    var env := P.Env(stores, config, P.Chars(session), P.PluginMarkers());
    var o := P.ExpandTree(env, args, P.OPENED).outs[k];
    G.TreeIsFaithful(env, args, P.OPENED);
    assert G.Genuine(env, o);
    var n: nat :| G.IsOwnBlob(env, stores(n), o.id, o.content, o.cut);
    handle := HandleOf(o.id);
    assert AnswersDuring(stores(n), start, steps, before(n), between(n), session);
    text := OwnText(start, steps, before(n), between(n), stores(n), session, handle);
  }

  lemma OwnText(start: Files, steps: seq<Step>, before: seq<Step>, between: seq<Step>, store: P.Store, session: SessionKey,
                handle: Handle) returns (text: string)
    requires AnswersDuring(store, start, steps, before, between, session)
    requires store.references(P.Chars(handle), P.Chars(session)) && store.blobText(P.Chars(handle)).Some?
    ensures var s := Run(Init(start), steps);
            && (session, handle, Utf8(text)) in s.puts
            && (forall c :: c in s.puts && c.1 == handle ==> c.2 == Utf8(text))
            && store.blobText(P.Chars(handle)) == Some(P.Chars(text))
  {
    var s := Run(Init(start), before);
    var t := Run(s, between);
    RunOk(Init(start), before);
    assert SessionReferences(s.db, s.disk.files, session, handle);
    assert IsLive(s.db.owners, (session, handle));
    AgreementStays(s, between, handle);
    assert store.blobText(P.Chars(handle)) == OptionChars(BlobText(t.disk.files, handle));
    text := BlobText(t.disk.files, handle).value;
    assert Registered(s.db, handle) == Utf8(text) by {
      RunOk(s, between);
    }
    LaterRun(start, steps, before, between);
    RunOk(Init(start), steps);
  }

  /** The history only grows. */
  lemma LaterRun(start: Files, steps: seq<Step>, before: seq<Step>, between: seq<Step>)
    requires before + between <= steps
    ensures Run(Init(start), before).puts <= Run(Init(start), steps).puts
  {
    var after := steps[|before|..];
    assert steps == before + after;
    RunConcat(Init(start), before, after);
    RunOk(Init(start), before);
    RunOk(Run(Init(start), before), after);
  }
}
