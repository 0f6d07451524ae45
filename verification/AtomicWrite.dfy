/**
  Writing the config file: temporary file, sync, rename. A crash may lose data
  that was not synced and may or may not have kept the latest rename.
*/
module AtomicWrite {
  import opened Text

  datatype Inode = Inode(text: string, synced: bool)

  /**
    The files that matter. `target` and `tmp` are the directory entries a
    running program sees; `maybe` holds every inode the target's entry may point
    to after a crash.
  */
  datatype Fs = Fs(inodes: seq<Inode>, target: Option<nat>, tmp: Option<nat>, maybe: set<Option<nat>>)

  /** The environment's answers; `wrote` is how much of the content a failing write gets down. */
  datatype Faults = Faults(
    mkdir: bool,
    open: bool,
    write: bool,
    wrote: nat,
    sync: bool,
    close: bool,
    rename: bool,
    remove: bool)

  predicate Valid(fs: Fs) {
    && fs.target in fs.maybe
    && (forall e :: e in fs.maybe && e.Some? ==> e.value < |fs.inodes|)
    && (fs.tmp.Some? ==> fs.tmp.value < |fs.inodes| && fs.tmp !in fs.maybe)
  }

  /** What a reader of the target sees while the system is up. */
  function Live(fs: Fs): Option<string>
    requires Valid(fs)
  {
    if fs.target.Some? then Some(fs.inodes[fs.target.value].text) else None
  }

  /** After a crash an inode that was not synced may hold anything. */
  predicate MayRead(fs: Fs, e: Option<nat>, x: Option<string>)
    requires e.Some? ==> e.value < |fs.inodes|
  {
    if e.None? then x.None?
    else x.Some? && (fs.inodes[e.value].synced ==> x.value == fs.inodes[e.value].text)
  }

  /** `x` may be what the target holds after a crash in this state. */
  ghost predicate AfterCrash(fs: Fs, x: Option<string>)
    requires Valid(fs)
  {
    exists e :: e in fs.maybe && MayRead(fs, e, x)
  }

  /******* System calls *******/

  /** Opening creates the temporary file, or empties the one a failed attempt left behind. */
  function OpenTmp(fs: Fs): Fs
    requires Valid(fs)
  {
    if fs.tmp.Some? then fs.(inodes := fs.inodes[fs.tmp.value := Inode("", false)])
    else fs.(inodes := fs.inodes + [Inode("", false)], tmp := Some(|fs.inodes|))
  }

  function SetTmp(fs: Fs, text: string, synced: bool): Fs
    requires Valid(fs) && fs.tmp.Some?
  {
    fs.(inodes := fs.inodes[fs.tmp.value := Inode(text, synced)])
  }

  function RenameTmp(fs: Fs): Fs
    requires Valid(fs) && fs.tmp.Some?
  {
    fs.(target := fs.tmp, tmp := None, maybe := fs.maybe + {fs.tmp})
  }

  function RemoveTmp(fs: Fs, f: Faults): Fs {
    if f.remove then fs.(tmp := None) else fs
  }

  function Prefix(s: string, n: nat): string { if n <= |s| then s[..n] else s }

  /** The states the write goes through, in order, and whether it succeeds. */
  function Write(fs: Fs, content: string, f: Faults): (seq<Fs>, bool)
    requires Valid(fs)
  {
    if !f.mkdir || !f.open then ([fs], false)
    else
      var empty := OpenTmp(fs);
      if !f.write then
        var partial := SetTmp(empty, Prefix(content, f.wrote), false);
        ([fs, empty, partial, RemoveTmp(partial, f)], false)
      else
        var written := SetTmp(empty, content, false);
        if !f.sync then ([fs, empty, written, RemoveTmp(written, f)], false)
        else
          var synced := SetTmp(written, content, true);
          if !f.close || !f.rename then ([fs, empty, written, synced, RemoveTmp(synced, f)], false)
          else ([fs, empty, written, synced, RenameTmp(synced)], true)
  }

  /******* The write as the program runs it *******/

  class FileSystem {
    var inodes: seq<Inode>
    var target: Option<nat>
    var tmp: Option<nat>
    var maybe: set<Option<nat>>
    /** Every state since the last write began, for crashes in between. */
    ghost var visited: seq<Fs>

    function State(): Fs
      reads this
    {
      Fs(inodes, target, tmp, maybe)
    }

    constructor (fs: Fs)
      ensures State() == fs
    {
      inodes, target, tmp, maybe := fs.inodes, fs.target, fs.tmp, fs.maybe;
      visited := [];
    }

    method AtomicWrite(content: string, f: Faults) returns (ok: bool)
      requires Valid(State())
      modifies this
      ensures visited == Write(old(State()), content, f).0 && ok == Write(old(State()), content, f).1
      ensures State() == visited[|visited| - 1]
      ensures ok <==> f.mkdir && f.open && f.write && f.sync && f.close && f.rename
      ensures ok ==> tmp == None && target.Some? && target.value < |inodes| && inodes[target.value] == Inode(content, true)
      ensures !ok ==> target == old(target) && maybe == old(maybe)
      ensures !ok && f.mkdir && f.open ==> (tmp == None <==> f.remove)
      ensures !f.mkdir || !f.open ==> State() == old(State())
    {
      ghost var fs := State();
      visited := [fs];
      if !f.mkdir { return false; }
      if !f.open { return false; }
      OpenTemporary();
      ghost var empty := State();
      if !f.write {
        Fill(Prefix(content, f.wrote), false);
        Remove(f);
        return false;
      }
      Fill(content, false);
      ghost var written := State();
      assert visited == [fs, empty, written];
      if !f.sync {
        Remove(f);
        return false;
      }
      Fill(content, true);
      ghost var synced := State();
      assert visited == [fs, empty, written, synced];
      if !f.close || !f.rename {
        Remove(f);
        return false;
      }
      Rename();
      return true;
    }

    method Rename()
      requires Valid(State()) && tmp.Some?
      modifies this
      ensures State() == RenameTmp(old(State()))
      ensures visited == old(visited) + [State()]
    {
      target, tmp, maybe := tmp, None, maybe + {tmp};
      visited := visited + [State()];
    }

    method OpenTemporary()
      requires Valid(State())
      modifies this
      ensures State() == OpenTmp(old(State()))
      ensures visited == old(visited) + [State()]
    {
      if tmp.Some? {
        inodes := inodes[tmp.value := Inode("", false)];
      } else {
        inodes, tmp := inodes + [Inode("", false)], Some(|inodes|);
      }
      visited := visited + [State()];
    }

    /** Writing the temporary file, or syncing what was written. */
    method Fill(text: string, synced: bool)
      requires Valid(State()) && tmp.Some?
      modifies this
      ensures State() == SetTmp(old(State()), text, synced)
      ensures visited == old(visited) + [State()]
    {
      inodes := inodes[tmp.value := Inode(text, synced)];
      visited := visited + [State()];
    }

    method Remove(f: Faults)
      modifies this
      ensures State() == RemoveTmp(old(State()), f)
      ensures visited == old(visited) + [State()]
    {
      if f.remove { tmp := None; }
      visited := visited + [State()];
    }
  }

  /******* Crash safety *******/

  /** Relative to `before`, the target holds the old or the complete new content, now and after a crash. */
  ghost predicate OldOrNew(before: Fs, s: Fs, content: string)
    requires Valid(before) && Valid(s)
  {
    && (Live(s) == Live(before) || Live(s) == Some(content))
    && forall x :: AfterCrash(s, x) ==> AfterCrash(before, x) || x == Some(content)
  }

  /** States that differ from `before` in the temporary file only. */
  predicate TmpOnly(before: Fs, s: Fs) {
    && s.target == before.target && s.maybe == before.maybe
    && |before.inodes| <= |s.inodes|
    && forall i :: 0 <= i < |before.inodes| && Some(i) in before.maybe ==> s.inodes[i] == before.inodes[i]
  }

  lemma TmpOnlyIsOld(before: Fs, s: Fs, content: string)
    requires Valid(before) && Valid(s) && TmpOnly(before, s)
    ensures Live(s) == Live(before) && OldOrNew(before, s, content)
  {
    forall x | AfterCrash(s, x) ensures AfterCrash(before, x) {
      var e :| e in s.maybe && MayRead(s, e, x);
      assert MayRead(before, e, x);
    }
  }

  lemma RenameIsNew(before: Fs, s: Fs, content: string)
    requires Valid(before) && Valid(s) && TmpOnly(before, s)
    requires s.tmp.Some? && s.inodes[s.tmp.value] == Inode(content, true)
    ensures Valid(RenameTmp(s)) && OldOrNew(before, RenameTmp(s), content)
  {
    var r := RenameTmp(s);
    forall x | AfterCrash(r, x) ensures AfterCrash(before, x) || x == Some(content) {
      var e :| e in r.maybe && MayRead(r, e, x);
      if e != s.tmp { assert MayRead(before, e, x); }
    }
  }

  lemma OpenIsTmpOnly(fs: Fs)
    requires Valid(fs)
    ensures Valid(OpenTmp(fs)) && TmpOnly(fs, OpenTmp(fs)) && OpenTmp(fs).tmp.Some?
  {
  }

  lemma SetIsTmpOnly(before: Fs, s: Fs, text: string, synced: bool)
    requires Valid(before) && Valid(s) && TmpOnly(before, s) && s.tmp.Some?
    ensures Valid(SetTmp(s, text, synced)) && TmpOnly(before, SetTmp(s, text, synced))
  {
  }

  lemma RemoveIsTmpOnly(before: Fs, s: Fs, f: Faults)
    requires Valid(before) && Valid(s) && TmpOnly(before, s)
    ensures Valid(RemoveTmp(s, f)) && TmpOnly(before, RemoveTmp(s, f))
  {
  }

  /** A state of a write before its rename. */
  predicate Unrenamed(before: Fs, s: Fs)
    requires Valid(before)
  {
    Valid(s) && TmpOnly(before, s)
  }

  /** A write that fails never gets past the temporary file. */
  lemma FailureIsTmpOnly(fs: Fs, content: string, f: Faults)
    requires Valid(fs) && !Write(fs, content, f).1
    ensures forall s :: s in Write(fs, content, f).0 ==> Unrenamed(fs, s)
  {
    if f.mkdir && f.open {
      OpenIsTmpOnly(fs);
      var last := FilledTmp(fs, content, f);
      RemoveIsTmpOnly(fs, last, f);
    }
  }

  /** The states in which a write fills the temporary file; the result is the last of them. */
  lemma FilledTmp(fs: Fs, content: string, f: Faults) returns (last: Fs)
    requires Valid(fs) && f.mkdir && f.open
    ensures var empty := OpenTmp(fs);
            if !f.write then last == SetTmp(empty, Prefix(content, f.wrote), false)
            else if !f.sync then last == SetTmp(empty, content, false)
            else Unrenamed(fs, SetTmp(empty, content, false)) && last == SetTmp(SetTmp(empty, content, false), content, true)
    ensures Unrenamed(fs, last) && last.tmp.Some?
  {
    OpenIsTmpOnly(fs);
    var empty := OpenTmp(fs);
    if !f.write {
      last := SetTmp(empty, Prefix(content, f.wrote), false);
      SetIsTmpOnly(fs, empty, Prefix(content, f.wrote), false);
    } else {
      last := SetTmp(empty, content, false);
      SetIsTmpOnly(fs, empty, content, false);
      if f.sync {
        SetIsTmpOnly(fs, last, content, true);
        last := SetTmp(last, content, true);
      }
    }
  }

  /** A write that succeeds fills the temporary file, syncs it, and renames it last. */
  lemma SuccessRenamesLast(fs: Fs, content: string, f: Faults)
    requires Valid(fs) && Write(fs, content, f).1
    ensures var states := Write(fs, content, f).0;
            && |states| == 5
            && (forall k :: 0 <= k < 4 ==> Unrenamed(fs, states[k]))
            && states[3].tmp.Some? && states[3].inodes[states[3].tmp.value] == Inode(content, true)
            && states[4] == RenameTmp(states[3])
  {
    OpenIsTmpOnly(fs);
    var last := FilledTmp(fs, content, f);
    var states := Write(fs, content, f).0;
    assert states == [fs, OpenTmp(fs), SetTmp(OpenTmp(fs), content, false), last, RenameTmp(last)];
  }

  /** At every step, whatever fails: the old or the complete new content. An error means old, success means new. */
  lemma {:induction false} CrashSafe(fs: Fs, content: string, f: Faults)
    requires Valid(fs)
    ensures var (states, ok) := Write(fs, content, f);
            var last := states[|states| - 1];
            && (forall s :: s in states ==> Valid(s) && OldOrNew(fs, s, content))
            && Valid(last)
            && (ok ==> Live(last) == Some(content) && last.tmp == None)
            && (!ok ==> Live(last) == Live(fs) && last.maybe == fs.maybe)
  {
    if Write(fs, content, f).1 { SuccessIsNew(fs, content, f); } else { FailureIsOld(fs, content, f); }
  }

  lemma {:induction false} FailureIsOld(fs: Fs, content: string, f: Faults)
    requires Valid(fs) && !Write(fs, content, f).1
    ensures var states := Write(fs, content, f).0;
            var last := states[|states| - 1];
            && (forall s :: s in states ==> Valid(s) && OldOrNew(fs, s, content))
            && Valid(last) && Live(last) == Live(fs) && last.maybe == fs.maybe
  {
    FailureIsTmpOnly(fs, content, f);
    var states := Write(fs, content, f).0;
    forall s | s in states ensures Valid(s) && OldOrNew(fs, s, content) && Live(s) == Live(fs) && s.maybe == fs.maybe {
      assert Unrenamed(fs, s);
      TmpOnlyIsOld(fs, s, content);
    }
    assert states[|states| - 1] in states;
  }

  lemma {:induction false} SuccessIsNew(fs: Fs, content: string, f: Faults)
    requires Valid(fs) && Write(fs, content, f).1
    ensures var states := Write(fs, content, f).0;
            var last := states[|states| - 1];
            && (forall s :: s in states ==> Valid(s) && OldOrNew(fs, s, content))
            && Valid(last) && Live(last) == Some(content) && last.tmp == None
  {
    SuccessRenamesLast(fs, content, f);
    var states := Write(fs, content, f).0;
    assert Unrenamed(fs, states[3]);
    RenameIsNew(fs, states[3], content);
    forall k | 0 <= k < 4 ensures Valid(states[k]) && OldOrNew(fs, states[k], content) {
      assert Unrenamed(fs, states[k]);
      TmpOnlyIsOld(fs, states[k], content);
    }
  }

  /** When a write succeeds, whatever the target and the temporary file hold; and what becomes of the temporary file when it does not. */
  lemma WriteSucceedsIff(fs: Fs, content: string, f: Faults)
    requires Valid(fs)
    ensures var (states, ok) := Write(fs, content, f);
            var last := states[|states| - 1];
            && (ok <==> f.mkdir && f.open && f.write && f.sync && f.close && f.rename)
            && (!ok && f.mkdir && f.open ==> (last.tmp == None <==> f.remove))
            && (!f.mkdir || !f.open ==> last == fs)
  {
    if f.mkdir && f.open { OpenIsTmpOnly(fs); }
  }

  /** Renaming a file that was not synced would put anything at all within reach of a crash. */
  lemma SyncIsNeeded(fs: Fs, x: string)
    requires Valid(fs) && fs.tmp.Some? && !fs.inodes[fs.tmp.value].synced
    ensures Valid(RenameTmp(fs)) && AfterCrash(RenameTmp(fs), Some(x))
  {
    assert MayRead(RenameTmp(fs), fs.tmp, Some(x));
  }

  /** A rename is not durable by itself: after a crash the target may hold the new content or anything it may have held before. */
  lemma {:induction false} RenameMayBeLost(fs: Fs, x: Option<string>)
    requires Valid(fs) && fs.tmp.Some? && fs.inodes[fs.tmp.value].synced
    ensures Valid(RenameTmp(fs))
    ensures AfterCrash(RenameTmp(fs), x) <==> AfterCrash(fs, x) || x == Some(fs.inodes[fs.tmp.value].text)
  {
    var r := RenameTmp(fs);
    if AfterCrash(r, x) {
      var e :| e in r.maybe && MayRead(r, e, x);
      if e != fs.tmp { assert MayRead(fs, e, x); }
    }
    if AfterCrash(fs, x) {
      var e :| e in fs.maybe && MayRead(fs, e, x);
      assert e in r.maybe && MayRead(r, e, x);
    }
    if x == Some(fs.inodes[fs.tmp.value].text) {
      assert fs.tmp in r.maybe && MayRead(r, fs.tmp, x);
    }
  }

  /******* Many writes *******/

  /** One attempt; `crash` is the state in which the machine went down, if it did. */
  datatype Attempt = Attempt(content: string, faults: Faults, crash: Option<Fs>)

  /** A file system that comes up after a crash in state `s`: the target holds what may be read then, and no longer depends on anything unsynced. */
  ghost predicate Recovered(s: Fs, r: Fs)
    requires Valid(s)
  {
    Valid(r) && AfterCrash(s, Live(r)) && forall x :: AfterCrash(r, x) ==> x == Live(r)
  }

  ghost predicate AttemptLeads(before: Fs, a: Attempt, r: Fs)
    requires Valid(before)
  {
    var states := Write(before, a.content, a.faults).0;
    match a.crash
    case None => r == states[|states| - 1]
    case Some(s) => s in states && Valid(s) && Recovered(s, r)
  }

  /** These attempts, each ending in success, in an error or in a crash, can leave the files as `r`. */
  ghost predicate Leads(fs: Fs, attempts: seq<Attempt>, r: Fs)
    requires Valid(fs)
  {
    if attempts == [] then r == fs
    else exists before | Valid(before) ::
      Leads(fs, attempts[..|attempts| - 1], before) && AttemptLeads(before, attempts[|attempts| - 1], r)
  }

  /** One attempt leaves one complete content within reach of a crash: an earlier one or its own. */
  lemma {:induction false} AttemptTearsNothing(before: Fs, a: Attempt, r: Fs, x: Option<string>)
    requires Valid(before) && AttemptLeads(before, a, r)
    ensures Valid(r)
    ensures AfterCrash(r, x) ==> AfterCrash(before, x) || x == Some(a.content)
  {
    CrashSafe(before, a.content, a.faults);
    var states := Write(before, a.content, a.faults).0;
    assert states[|states| - 1] in states;
  }

  lemma {:induction false} AttemptsTearNothing(fs: Fs, attempts: seq<Attempt>, r: Fs, x: Option<string>)
    requires Valid(fs) && Leads(fs, attempts, r)
    ensures Valid(r)
    ensures AfterCrash(r, x) ==> AfterCrash(fs, x) || exists a :: a in attempts && x == Some(a.content)
  {
    if attempts == [] {
    } else {
      var init, a := attempts[..|attempts| - 1], attempts[|attempts| - 1];
      var before :| Valid(before) && Leads(fs, init, before) && AttemptLeads(before, a, r);
      AttemptTearsNothing(before, a, r, x);
      AttemptsTearNothing(fs, init, before, x);
      assert a in attempts && forall b :: b in init ==> b in attempts;
    }
  }

  /** Over any number of attempts, any of them cut short by a crash, and at any step of one more: what a crash leaves is one complete content, an initial one or one that was being written. */
  lemma {:induction false} NothingTorn(fs: Fs, attempts: seq<Attempt>, r: Fs, content: string, f: Faults, s: Fs, x: Option<string>)
    requires Valid(fs) && Leads(fs, attempts, r) && Valid(r)
    requires s in Write(r, content, f).0 && Valid(s) && AfterCrash(s, x)
    ensures AfterCrash(fs, x) || x == Some(content) || exists a :: a in attempts && x == Some(a.content)
  {
    CrashSafe(r, content, f);
    AttemptsTearNothing(fs, attempts, r, x);
  }
}
