/** The folder open/mode state machine both mail clients run before every
    folder operation (`ensureFolderIsOpen`): while the folder is closed or open
    in a weaker mode, check for an interrupt, close the folder without
    expunging if it is open, and try to open it in the requested mode,
    retrying after a failed open. `Reopen` is the specification, the method
    runs the loop against a `Folder`. */
module FolderSession {
  import opened MailTypes
  import opened Folders

  /** The outcome, final state and folder calls of the reopen loop started in
      state `s`, when the environment behaves as `env` says. */
  datatype Reopened = Reopened(outcome: Outcome, state: FolderState, ops: seq<FolderOp>)

  function Reopen(s: FolderState, mode: int, env: seq<Attempt>): (r: Reopened)
    requires Sufficient(s, mode) || Terminates(env)
    ensures r.outcome == Pass ==> Sufficient(r.state, mode)
    ensures r.outcome != Pass ==> r.outcome == Fail(Interrupted)
    ensures Sufficient(s, mode) ==> r == Reopened(Pass, s, [])
    decreases |env|
  {
    if Sufficient(s, mode) then Reopened(Pass, s, [])
    else if env[0].interrupted then Reopened(Fail(Interrupted), s, [])
    else
      var closing := if s.isOpen then [CloseOp(false)] else [];
      var next := if env[0].openSucceeds then FolderState(true, mode) else FolderState(false, s.mode);
      var rest := Reopen(next, mode, env[1..]);
      Reopened(rest.outcome, rest.state, closing + [OpenOp(mode)] + rest.ops)
  }

  /** The calls the loop makes: one close without expunge, first, and only
      when the folder was open; every other call an open in the requested
      mode. */
  lemma {:induction false} ReopenCalls(s: FolderState, mode: int, env: seq<Attempt>)
    requires Sufficient(s, mode) || Terminates(env)
    ensures forall k :: 0 <= k < |Reopen(s, mode, env).ops| ==>
      Reopen(s, mode, env).ops[k] == if k == 0 && s.isOpen then CloseOp(false) else OpenOp(mode)
    decreases |env|
  {
    if !Sufficient(s, mode) && !env[0].interrupted {
      var next := if env[0].openSucceeds then FolderState(true, mode) else FolderState(false, s.mode);
      var closing := if s.isOpen then [CloseOp(false)] else [];
      var rest := Reopen(next, mode, env[1..]).ops;
      ReopenCalls(next, mode, env[1..]);
      assert next.isOpen ==> rest == [];
      var ops := closing + [OpenOp(mode)] + rest;
      forall k | 0 <= k < |ops|
        ensures ops[k] == if k == 0 && s.isOpen then CloseOp(false) else OpenOp(mode)
      {
        if k >= |closing| + 1 {
          var j := k - |closing| - 1;
          assert !next.isOpen && rest[j] == (if j == 0 && next.isOpen then CloseOp(false) else OpenOp(mode));
          assert ops[k] == rest[j];
        }
      }
    }
  }

  /** The interrupt flag is checked before every attempt and each failed
      open is retried: the loop stops at the first attempt that is
      interrupted or whose open succeeds, it fails with Interrupted exactly
      when that attempt is interrupted, and it has made one open per
      attempt before it (plus one for it when it was not interrupted). */
  lemma {:induction false} ReopenStopsAtFirstDecisive(s: FolderState, mode: int, env: seq<Attempt>)
    requires !Sufficient(s, mode) && Terminates(env)
    ensures var r := Reopen(s, mode, env);
      var i := FirstDecisive(env);
      var opens := if env[i].interrupted then i else i + 1;
      && (r.outcome == Fail(Interrupted) <==> env[i].interrupted)
      && (r.outcome == Pass ==> r.state == FolderState(true, mode))
      && |r.ops| == opens + (if s.isOpen && opens > 0 then 1 else 0)
    decreases |env|
  {
    if !env[0].interrupted && !env[0].openSucceeds {
      ReopenStopsAtFirstDecisive(FolderState(false, s.mode), mode, env[1..]);
    }
  }

  /** The state after an attempt that was not interrupted. */
  function AfterAttempt(s: FolderState, mode: int, a: Attempt): FolderState {
    if a.openSucceeds then FolderState(true, mode) else FolderState(false, s.mode)
  }

  /** The calls of an attempt that was not interrupted. */
  function AttemptOps(s: FolderState, mode: int): seq<FolderOp> {
    if s.isOpen then [CloseOp(false), OpenOp(mode)] else [OpenOp(mode)]
  }

  /** The rest of the loop, after the calls `done` already made. */
  function Resumed(rest: Reopened, done: seq<FolderOp>): Reopened {
    Reopened(rest.outcome, rest.state, done + rest.ops)
  }

  /** One iteration of the loop on the remaining attempts `env`, as
      `Reopen` takes it. */
  lemma ReopenAdvance(s: FolderState, mode: int, env: seq<Attempt>, done: seq<FolderOp>, spec: Reopened)
    requires !Sufficient(s, mode) && Terminates(env)
    requires spec == Resumed(Reopen(s, mode, env), done)
    ensures env[0].interrupted ==> spec == Reopened(Fail(Interrupted), s, done)
    ensures !env[0].interrupted ==> Sufficient(AfterAttempt(s, mode, env[0]), mode) || Terminates(env[1..])
    ensures !env[0].interrupted ==>
      spec == Resumed(Reopen(AfterAttempt(s, mode, env[0]), mode, env[1..]), done + AttemptOps(s, mode))
  {
    if !env[0].interrupted {
      var next := AfterAttempt(s, mode, env[0]);
      assert Sufficient(next, mode) || Terminates(env[1..]);
      var rest := Reopen(next, mode, env[1..]);
      var ops := AttemptOps(s, mode);
      assert Reopen(s, mode, env) == Reopened(rest.outcome, rest.state, ops + rest.ops);
      assert done + (ops + rest.ops) == (done + ops) + rest.ops;
    }
  }

  /** One attempt of the loop that was not interrupted: close the folder
      without expunging if it is open, then open it in `mode`. */
  method TryReopen(folder: Folder, mode: int, openSucceeds: bool)
    modifies folder
    ensures folder.State() == AfterAttempt(old(folder.State()), mode, Attempt(false, openSucceeds))
    ensures folder.log == old(folder.log) + AttemptOps(old(folder.State()), mode)
    ensures folder.messages == old(folder.messages) && folder.deleted == old(folder.deleted)
  {
    if folder.isOpen {
      folder.Close(false);
    }
    folder.Open(mode, openSucceeds);
  }

  /** `ensureFolderIsOpen(folder, mode)`: a null folder is an
      IllegalArgumentException; otherwise the folder ends as `Reopen` says,
      nothing but its open state and call log changes. */
  method EnsureFolderIsOpen(folder: Folder?, mode: int, env: seq<Attempt>) returns (r: Outcome)
    requires folder != null ==> Sufficient(folder.State(), mode) || Terminates(env)
    modifies folder
    ensures folder == null ==> r == Fail(IllegalArgument)
    ensures folder != null ==>
      var spec := Reopen(old(folder.State()), mode, env);
      && r == spec.outcome
      && folder.State() == spec.state
      && folder.log == old(folder.log) + spec.ops
      && folder.messages == old(folder.messages) && folder.deleted == old(folder.deleted)
  {
    if folder == null {
      return Fail(IllegalArgument);
    }
    ghost var spec := Reopen(folder.State(), mode, env);
    ghost var done: seq<FolderOp> := [];
    var i := 0;
    assert env[i..] == env && spec == Resumed(spec, done);
    while !folder.isOpen || folder.mode < mode
      invariant 0 <= i <= |env|
      invariant Sufficient(folder.State(), mode) || Terminates(env[i..])
      invariant folder.log == old(folder.log) + done
      invariant spec == Resumed(Reopen(folder.State(), mode, env[i..]), done)
      invariant folder.messages == old(folder.messages) && folder.deleted == old(folder.deleted)
      decreases |env| - i
    {
      ReopenAdvance(folder.State(), mode, env[i..], done, spec);
      assert env[i..][0] == env[i] && env[i..][1..] == env[i + 1..];
      if env[i].interrupted {
        return Fail(Interrupted);
      }
      done := done + AttemptOps(folder.State(), mode);
      TryReopen(folder, mode, env[i].openSucceeds);
      i := i + 1;
    }
    assert done + [] == done;
    r := Pass;
  }

  /** The effect of `getMessages(folder, term)` on a non-null folder: the
      folder is ensured READ_ONLY as `Reopen` says; if that succeeds the
      result is every stored message for a null term, otherwise the
      messages the search selects, in folder order. */
  twostate predicate Listed(folder: Folder, term: Option<SearchTerm>, env: seq<Attempt>, new r: Result<seq<Message>>)
    requires Sufficient(old(folder.State()), READ_ONLY) || Terminates(env)
    reads folder
  {
    var spec := Reopen(old(folder.State()), READ_ONLY, env);
    && folder.State() == spec.state
    && folder.log == old(folder.log) + spec.ops
    && folder.messages == old(folder.messages) && folder.deleted == old(folder.deleted)
    && (spec.outcome.Fail? ==> r == Err(spec.outcome.error))
    && (spec.outcome == Pass && term.None? ==> r == Ok(InFolder(folder, folder.messages)))
    && (spec.outcome == Pass && term.Some? ==>
          r == Ok(InFolder(folder, Select(folder.messages, term.value, folder.dateMatches))))
  }

  /** `getMessages(folder, term)`, the same in both mail clients. */
  method GetMessages(folder: Folder?, term: Option<SearchTerm>, env: seq<Attempt>) returns (r: Result<seq<Message>>)
    requires folder != null ==> Sufficient(folder.State(), READ_ONLY) || Terminates(env)
    modifies folder
    ensures folder == null ==> r == Err(IllegalArgument)
    ensures folder != null ==> Listed(folder, term, env, r)
  {
    var o := EnsureFolderIsOpen(folder, READ_ONLY, env);
    if o.Fail? {
      return Err(o.error);
    }
    var mails;
    if term.Some? {
      mails := folder.Search(term.value);
    } else {
      mails := folder.GetMessages();
    }
    r := Ok(InFolder(folder, mails));
  }
}
