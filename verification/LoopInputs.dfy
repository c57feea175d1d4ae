/** The inputs a loop opens for its here-documents, and how it puts the descriptor table back. */
module LoopInputs {
  import opened Text

  datatype Entry = Entry(read: Option<string>, write: Option<string>, closed: bool, dynamic: bool)

  type Table = map<nat, Entry>

  datatype Redirect = Redirect(fd: nat, body: string)

  datatype Saved = Saved(fd: nat, entry: Option<Entry>)

  function At(t: Table, fd: nat): Option<Entry> { if fd in t then Some(t[fd]) else None }

  /** The table after opening a text for reading; an open write end of the descriptor stays. */
  function Opened(t: Table, r: Redirect): Table {
    var entry := if r.fd in t then t[r.fd] else Entry(None, None, false, true);
    t[r.fd := entry.(read := Some(r.body), closed := false)]
  }

  function OpenedAll(t: Table, rs: seq<Redirect>): Table {
    if rs == [] then t else Opened(OpenedAll(t, rs[..|rs| - 1]), rs[|rs| - 1])
  }

  function SavedBy(t: Table, rs: seq<Redirect>): seq<Saved> {
    seq(|rs|, i requires 0 <= i < |rs| => Saved(rs[i].fd, At(OpenedAll(t, rs[..i]), rs[i].fd)))
  }

  function PutBack(t: Table, s: Saved): Table {
    match s.entry
    case Some(entry) => t[s.fd := entry]
    case None => t - {s.fd}
  }

  function Restored(t: Table, saved: seq<Saved>): Table {
    if saved == [] then t else PutBack(Restored(t, saved[..|saved| - 1]), saved[|saved| - 1])
  }

  class FdTable {
    var entries: Table

    constructor (entries: Table)
      ensures this.entries == entries
    {
      this.entries := entries;
    }

    method OpenInput(fd: nat, body: string)
      modifies this
      ensures entries == Opened(old(entries), Redirect(fd, body))
    {
      if fd !in entries { entries := entries[fd := Entry(None, None, false, true)]; }
      entries := entries[fd := entries[fd].(read := Some(body), closed := false)];
    }

    /** Before the loop: remember each descriptor's entry, then open the text. */
    method OpenHeredocs(redirects: seq<Redirect>) returns (saved: seq<Saved>)
      modifies this
      ensures entries == OpenedAll(old(entries), redirects) && saved == SavedBy(old(entries), redirects)
    {
      saved := [];
      assert redirects[..0] == [];
      for i := 0 to |redirects|
        invariant entries == OpenedAll(old(entries), redirects[..i])
        invariant saved == SavedBy(old(entries), redirects[..i])
      {
        var r := redirects[i];
        SavedGrows(old(entries), redirects[..i], r);
        assert redirects[..i + 1] == redirects[..i] + [r];
        saved := saved + [Saved(r.fd, At(entries, r.fd))];
        OpenInput(r.fd, r.body);
      }
      assert redirects[..|redirects|] == redirects;
    }

    /** After the loop, in the order of saving. */
    method RestoreAll(saved: seq<Saved>)
      modifies this
      ensures entries == Restored(old(entries), saved)
    {
      assert saved[..0] == [];
      for i := 0 to |saved|
        invariant entries == Restored(old(entries), saved[..i])
      {
        assert saved[..i + 1][..i] == saved[..i];
        match saved[i].entry {
          case Some(entry) => entries := entries[saved[i].fd := entry];
          case None => entries := entries - {saved[i].fd};
        }
      }
      assert saved[..|saved|] == saved;
    }
  }

  lemma SavedGrows(t: Table, rs: seq<Redirect>, r: Redirect)
    ensures SavedBy(t, rs + [r]) == SavedBy(t, rs) + [Saved(r.fd, At(OpenedAll(t, rs), r.fd))]
    ensures OpenedAll(t, rs + [r]) == Opened(OpenedAll(t, rs), r)
  {
    hide OpenedAll, Opened;
    assert (rs + [r])[..|rs|] == rs;
    assert forall i | 0 <= i < |rs| :: (rs + [r])[..i] == rs[..i];
    assert OpenedAll(t, rs + [r]) == Opened(OpenedAll(t, rs), r) by { OpenedGrows(t, rs, r); }
  }

  lemma OpenedGrows(t: Table, rs: seq<Redirect>, r: Redirect)
    ensures OpenedAll(t, rs + [r]) == Opened(OpenedAll(t, rs), r)
  {
    assert (rs + [r])[..|rs|] == rs;
  }

  predicate Opens(rs: seq<Redirect>, fd: nat) { exists r | r in rs :: r.fd == fd }

  /** The text that the last redirection of a descriptor opens. */
  function LastBody(rs: seq<Redirect>, fd: nat): Option<string> {
    if rs == [] then None
    else if rs[|rs| - 1].fd == fd then Some(rs[|rs| - 1].body)
    else LastBody(rs[..|rs| - 1], fd)
  }

  /** The redirections before the last one of a descriptor. */
  function BeforeLast(rs: seq<Redirect>, fd: nat): seq<Redirect> {
    if rs == [] || rs[|rs| - 1].fd == fd then (if rs == [] then [] else rs[..|rs| - 1])
    else BeforeLast(rs[..|rs| - 1], fd)
  }

  lemma {:induction false} OpenedAt(t: Table, rs: seq<Redirect>, fd: nat)
    ensures LastBody(rs, fd) == None ==> At(OpenedAll(t, rs), fd) == At(t, fd)
    ensures LastBody(rs, fd).Some? ==>
              var entry := if fd in t then t[fd] else Entry(None, None, false, true);
              At(OpenedAll(t, rs), fd) == Some(entry.(read := LastBody(rs, fd), closed := false))
  {
    if rs != [] { OpenedAt(t, rs[..|rs| - 1], fd); }
  }

  lemma {:induction false} RestoredAt(t: Table, rs: seq<Redirect>, after: Table, fd: nat)
    ensures LastBody(rs, fd) == None ==> At(Restored(after, SavedBy(t, rs)), fd) == At(after, fd)
    ensures LastBody(rs, fd).Some? ==>
              At(Restored(after, SavedBy(t, rs)), fd) == At(OpenedAll(t, BeforeLast(rs, fd)), fd)
  {
    if rs == [] {
      assert SavedBy(t, rs) == [];
    } else {
      hide OpenedAll, SavedBy, Restored, LastBody, BeforeLast;
      var before, r := rs[..|rs| - 1], rs[|rs| - 1];
      RestoredAt(t, before, after, fd);
      SavedGrows(t, before, r);
      LastGrows(before, r, fd);
      RestoredGrows(after, SavedBy(t, before), Saved(r.fd, At(OpenedAll(t, before), r.fd)));
      assert rs == before + [r];
    }
  }

  lemma LastGrows(rs: seq<Redirect>, r: Redirect, fd: nat)
    ensures LastBody(rs + [r], fd) == (if r.fd == fd then Some(r.body) else LastBody(rs, fd))
    ensures BeforeLast(rs + [r], fd) == (if r.fd == fd then rs else BeforeLast(rs, fd))
  {
    assert (rs + [r])[..|rs|] == rs;
  }

  lemma RestoredGrows(t: Table, saved: seq<Saved>, s: Saved)
    ensures Restored(t, saved + [s]) == PutBack(Restored(t, saved), s)
  {
    assert (saved + [s])[..|saved|] == saved;
  }

  /** Whatever the loop did to the table, a descriptor it did not redirect keeps what the loop left, and one it did
      redirect has its old entry back exactly when it was redirected once, or when the text opened by its last but
      one redirection was being read before the loop. */
  lemma RestoreMeaning(t: Table, rs: seq<Redirect>, after: Table, fd: nat)
    ensures var end := Restored(after, SavedBy(t, rs));
            var earlier := LastBody(BeforeLast(rs, fd), fd);
            && (!Opens(rs, fd) ==> At(end, fd) == At(after, fd))
            && (Opens(rs, fd) ==>
                  (At(end, fd) == At(t, fd) <==>
                   earlier == None || (fd in t && t[fd].read == earlier && !t[fd].closed)))
  {
    RestoredAt(t, rs, after, fd);
    OpenedAt(t, BeforeLast(rs, fd), fd);
    BodyOpens(rs, fd);
  }

  lemma {:induction false} BodyOpens(rs: seq<Redirect>, fd: nat)
    ensures LastBody(rs, fd).Some? <==> Opens(rs, fd)
  {
    if rs != [] {
      var last := |rs| - 1;
      BodyOpens(rs[..last], fd);
      assert rs == rs[..last] + [rs[last]];
    }
  }
}
