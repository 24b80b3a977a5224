/** Refreshing the signed assignment authority: one durable file, one in-memory
    copy, and crashes between any two writes. */
module Assignments {
  import opened Common

  /** `dynamic` documents carry their own allowed actions. */
  datatype Document = Document(content: string, dynamic: bool)

  datatype Bundle = Bundle(revision: nat, cursor: string, document: Document)

  /** The zero state has no cursor. */
  datatype State = State(revision: nat, cursor: string)

  datatype File = Missing | Legacy(state: State) | Authority(state: State, document: Document)

  function Revision(f: File): nat {
    if f.Missing? then 0 else f.state.revision
  }

  /** The client's gate. `authentic` stands for identity, signature, hash and dates. */
  predicate Verified(b: Bundle, previous: State, authentic: bool) {
    && authentic && b.cursor != ""
    && b.revision > previous.revision
    && (previous.cursor != "" ==> b.cursor != previous.cursor)
  }

  function StateOf(b: Bundle): State {
    State(b.revision, b.cursor)
  }

  /** An authority snapshot is one bundle: its revision, its cursor, its document. */
  predicate Snapshot(f: File, verified: set<Bundle>) {
    f.Authority? ==> f.document.dynamic && Bundle(f.state.revision, f.state.cursor, f.document) in verified
  }

  datatype Outcome = Advanced | Unchanged | Failed

  /** The file a verified bundle is saved as. */
  function Saved(b: Bundle): File {
    if b.document.dynamic then Authority(StateOf(b), b.document) else Legacy(StateOf(b))
  }

  /** The agent: its durable file, and what the running process holds. */
  class Agent {
    var file: File
    /** The separate assignment file that legacy readers use. */
    var compatibility: Option<Document>
    var state: State
    /** The process holds an authority, so it takes no legacy bundle. */
    var dynamic: bool
    var inventory: Option<Document>
    /** Every bundle that ever passed verification. */
    ghost var verified: set<Bundle>

    ghost predicate Valid()
      reads this
    {
      && Snapshot(file, verified)
      && state.revision <= Revision(file)
      && (dynamic ==> file.Authority? && HoldsBundle())
    }

    /** The process, too, holds revision, cursor and document of one bundle. */
    ghost predicate HoldsBundle()
      reads this
    {
      inventory.Some? && Bundle(state.revision, state.cursor, inventory.value) in verified
    }

    /** The process holds the durable authority, if there is one. */
    ghost predicate InStep()
      reads this
    {
      file.Authority? ==> dynamic && state == file.state && inventory == Some(file.document)
    }

    constructor ()
      ensures Valid() && InStep() && file == Missing && state == State(0, "") && !dynamic && verified == {}
    {
      file, compatibility, state, dynamic, inventory := Missing, None, State(0, ""), false, None;
      verified := {};
    }

    /** Start again from the durable files. */
    method Restart()
      requires Snapshot(file, verified)
      modifies this`state, this`dynamic, this`inventory
      ensures Valid() && InStep()
      ensures state == (if file.Missing? then State(0, "") else file.state) && (dynamic <==> file.Authority?)
      ensures inventory == if file.Authority? then Some(file.document) else compatibility
    {
      match file {
        case Missing =>
          state, dynamic, inventory := State(0, ""), false, compatibility;
        case Legacy(s) =>
          state, dynamic, inventory := s, false, compatibility;
        case Authority(s, d) =>
          state, dynamic, inventory := s, true, Some(d);
      }
    }

    method StoreFile(next: File, clean: bool) returns (f: Fate<bool>)
      modifies this`file
      ensures file == old(file) || file == next
      ensures f == Alive(true) ==> file == next
      ensures clean ==> f == Alive(true)
    {
      var applied: bool, reported: bool, died: bool := *, *, *;
      if applied || reported || clean {
        file := next;
      }
      f := if clean then Alive(true) else if died then Died else Alive(reported);
    }

    method StoreCompatibility(d: Document, clean: bool) returns (f: Fate<bool>)
      modifies this`compatibility
      ensures clean ==> f == Alive(true)
      ensures compatibility == old(compatibility) || compatibility == Some(d)
      ensures f == Alive(true) ==> compatibility == Some(d)
    {
      var applied: bool, reported: bool, died: bool := *, *, *;
      if applied || reported || clean {
        compatibility := Some(d);
      }
      f := if clean then Alive(true) else if died then Died else Alive(reported);
    }

    method Ask(clean: bool) returns (ok: bool)
      ensures clean ==> ok
    {
      ok := *;
      ok := ok || clean;
    }

    /** One refresh. Dying leaves the files as they are; otherwise the process goes on.
        In a `clean` run only applying the authority can fail, if not `applies`. */
    method Refresh(b: Bundle, authentic: bool, clean: bool, applies: bool) returns (f: Fate<Outcome>)
      requires Valid()
      modifies this
      ensures Snapshot(file, verified) && old(state).revision <= Revision(file)
      // The only file a refresh can write, and when.
      ensures file != old(file) ==> Verified(b, old(state), authentic) && file == Saved(b)
      ensures file.Legacy? && file != old(file) ==> !old(dynamic)
      ensures old(dynamic) ==> file.Authority?
      ensures Revision(file) < Revision(old(file)) ==> old(state).revision < Revision(old(file))
      // What the process holds afterwards.
      ensures f.Alive? ==> Valid()
      ensures f == Alive(Advanced) ==> state == StateOf(b) && old(state).revision < state.revision
                                       && inventory == Some(b.document) && dynamic == b.document.dynamic
      ensures f.Alive? && f.value != Advanced ==> state == old(state) && dynamic == old(dynamic) && inventory == old(inventory)
      ensures f.Alive? && old(dynamic) ==> dynamic
      // Process and authority part exactly when a new authority was saved by a failed refresh.
      ensures f.Alive? && old(InStep()) ==>
                (InStep() <==> !(f.value == Failed && file.Authority? && file != old(file)))
      // Without faults a legacy bundle is saved if and only if the process holds no authority.
      ensures clean && Verified(b, old(state), authentic) && !b.document.dynamic ==>
                (file == Saved(b) <==> !old(dynamic)) && f == Alive(if old(dynamic) then Failed else Advanced)
      ensures clean && Verified(b, old(state), authentic) && b.document.dynamic ==>
                file == Saved(b) && f == Alive(if applies then Advanced else Failed)
      // The gate: authentic, newer, and at another cursor.
      ensures f == Alive(Unchanged) <==>
                !(authentic && b.cursor != "" && b.revision > old(state).revision
                  && (old(state).cursor == "" || b.cursor != old(state).cursor))
      // The compatibility file, which legacy readers use, follows a legacy bundle.
      ensures f == Alive(Advanced) ==> file == Saved(b) && (b.document.dynamic || compatibility == Some(b.document))
      ensures clean && f == Alive(Advanced) ==> compatibility == Some(b.document)
    {
      if !Verified(b, state, authentic) {
        return Alive(Unchanged);
      }
      verified := verified + {b};
      if b.document.dynamic {
        f := RefreshAuthority(b, clean, applies);
      } else {
        f := RefreshLegacy(b, clean);
      }
    }

    /** Save the authority, then the compatibility file, then apply the authority. */
    method RefreshAuthority(b: Bundle, clean: bool, applies: bool) returns (f: Fate<Outcome>)
      requires Valid() && b in verified && b.document.dynamic && b.revision > state.revision
      modifies this`file, this`compatibility, this`state, this`dynamic, this`inventory
      ensures Snapshot(file, verified) && old(state).revision <= Revision(file)
      ensures file == old(file) || file == Saved(b)
      ensures f.Alive? ==> Valid()
      ensures f == Alive(Advanced) ==> file == Saved(b) && state == StateOf(b) && dynamic && inventory == Some(b.document)
      ensures f.Alive? && f.value != Advanced ==>
                f.value == Failed && state == old(state) && dynamic == old(dynamic) && inventory == old(inventory)
      ensures clean ==> file == Saved(b) && f == Alive(if applies then Advanced else Failed)
      ensures clean && f == Alive(Advanced) ==> compatibility == Some(b.document)
    {
      var acceptable := Ask(clean);
      if !acceptable {
        return Alive(Failed);
      }
      var saved :- StoreFile(Saved(b), clean);
      if !saved {
        return Alive(Failed);
      }
      var _ :- StoreCompatibility(b.document, clean);
      var applied := Ask(clean && applies);
      if !applied || (clean && !applies) {
        return Alive(Failed);
      }
      state, dynamic, inventory := StateOf(b), true, Some(b.document);
      return Alive(Advanced);
    }

    /** A process that holds an authority refuses; otherwise the legacy file replaces
        whatever is there. */
    method RefreshLegacy(b: Bundle, clean: bool) returns (f: Fate<Outcome>)
      requires Valid() && !b.document.dynamic && b.revision > state.revision
      modifies this`file, this`compatibility, this`state, this`inventory
      ensures Snapshot(file, verified) && old(state).revision <= Revision(file)
      ensures file == old(file) || file == Saved(b)
      ensures dynamic ==> f == Alive(Failed) && file == old(file) && compatibility == old(compatibility)
      ensures f.Alive? ==> Valid()
      ensures f == Alive(Advanced) ==> file == Saved(b) && state == StateOf(b) && inventory == Some(b.document)
      ensures f.Alive? && f.value != Advanced ==> f.value == Failed && state == old(state) && inventory == old(inventory)
      ensures clean && !dynamic ==> f == Alive(Advanced)
      ensures f == Alive(Advanced) ==> compatibility == Some(b.document)
    {
      if dynamic {
        return Alive(Failed);
      }
      var written :- StoreCompatibility(b.document, clean);
      if !written {
        return Alive(Failed);
      }
      var saved :- StoreFile(Saved(b), clean);
      if !saved {
        return Alive(Failed);
      }
      state, inventory := StateOf(b), Some(b.document);
      return Alive(Advanced);
    }

    /** Any number of refreshes, each of which may fail, diverge or kill the process,
        which is then started again: the held revision never goes down, and a process
        that holds an authority never loses it, nor does its durable file. */
    method Live(steps: nat)
      requires Valid()
      modifies this
      ensures Valid()
      ensures old(state).revision <= state.revision
      ensures old(dynamic) ==> dynamic && file.Authority? && HoldsBundle()
    {
      for i := 0 to steps
        invariant Valid() && old(state).revision <= state.revision
        invariant old(dynamic) ==> dynamic
      {
        var b: Bundle, authentic: bool := *, *;
        var f := Refresh(b, authentic, false, false);
        if f.Died? {
          Restart();
        }
      }
    }
  }

  /** A run in which an authority is lost: it is saved, applying it fails, and the
      process, which still holds none, lets a legacy bundle replace it. */
  method LegacyReplacesAuthority(b: Bundle, legacy: Bundle) returns (a: Agent, between: File)
    requires b.document.dynamic && b.revision > 0 && b.cursor != ""
    requires !legacy.document.dynamic && legacy.revision > 0 && legacy.cursor != ""
    ensures fresh(a) && a.Valid()
    ensures between == Authority(StateOf(b), b.document) && a.file == Legacy(StateOf(legacy))
  {
    a := new Agent();
    var _ := a.Refresh(b, true, true, false);
    between := a.file;
    var _ := a.Refresh(legacy, true, true, true);
  }

  /** A bundle that was taken in survives a restart: the process holds its revision, its
      cursor and its document again. */
  method SurvivesRestart(a: Agent, b: Bundle, authentic: bool) returns (f: Fate<Outcome>)
    requires a.Valid()
    modifies a
    ensures a.Valid()
    ensures f == Alive(Advanced) ==> a.state == StateOf(b) && a.inventory == Some(b.document) && a.dynamic == b.document.dynamic
  {
    f := a.Refresh(b, authentic, false, false);
    a.Restart();
  }
}
