/**
 * What the store operations of src/config.rs promise, stated over the
 * spec functions `Applied`, `Deleted` and `Saved`, alone and in combination.
 */
module StoreLaws {
  import opened Wrappers
  import opened StringOrder
  import opened Store

  /** Two listings of the same directory are the same sequence: the listing does
      not depend on the order in which the OS enumerates the entries. */
  lemma ListingIsUnique(a: seq<string>, b: seq<string>, d: Disk)
    requires IsListing(a, d) && IsListing(b, d)
    ensures a == b
  {
    SortedListingUnique(a, b);
  }

  /** `apply_config` fails with "not found" exactly when the name is not in the
      directory, succeeds exactly on a regular file, on success makes the live file
      a copy of the snapshot, never touches the directory, and writes nothing
      when it fails. */
  lemma ApplyLaws(d: Disk, name: string)
    ensures var e := Applied(d, name);
      && (Utf8(name) !in d.dir <==> e.outcome == Fail(ConfigNotFound(name)))
      && (e.outcome.Pass? <==> IsListed(d, name))
      && (e.outcome.Pass? ==> e.disk.live == Some(d.dir[Utf8(name)].contents))
      && e.disk.dir == d.dir && e.disk.dirExists == d.dirExists
      && (e.outcome.Fail? ==> e.disk == d)
  {
  }

  /** `delete_config` fails with "not found" exactly when the name is not in the
      directory; on success it removes that entry and nothing else. */
  lemma DeleteLaws(d: Disk, name: string)
    ensures var e := Deleted(d, name);
      && (Utf8(name) !in d.dir <==> e.outcome == Fail(ConfigNotFound(name)))
      && (e.outcome.Pass? <==> IsListed(d, name))
      && (e.outcome.Pass? ==>
            && Utf8(name) !in e.disk.dir
            && (forall k :: k != Utf8(name) ==> (k in e.disk.dir <==> k in d.dir))
            && (forall k :: k in e.disk.dir ==> e.disk.dir[k] == d.dir[k])
            && e.disk.live == d.live && e.disk.dirExists == d.dirExists)
      && (e.outcome.Fail? ==> e.disk == d)
  {
  }

  /** `save_current_config` fails without writing when the live file is missing;
      there is no existence check, so an existing snapshot of that name is
      overwritten; on success only that entry changes. */
  lemma SaveLaws(d: Disk, name: string)
    requires d.Valid()
    ensures var e := Saved(d, name);
      && (d.live.None? ==> e == Effect(Fail(NoLiveConfig), d))
      && (d.live.Some? && IsListed(d, name) ==> e.outcome == Pass)
      && (e.outcome.Pass? ==>
            && d.live.Some?
            && e.disk.dir == d.dir[Utf8(name) := File(d.live.value)]
            && e.disk.live == d.live && e.disk.dirExists == d.dirExists)
      && (e.outcome.Fail? ==> e.disk == d)
  {
  }

  /** After a successful delete the listed names are the old ones minus `name`. */
  lemma DeleteShrinksListing(d: Disk, name: string)
    requires Deleted(d, name).outcome.Pass?
    ensures forall x :: IsListed(Deleted(d, name).disk, x) <==> IsListed(d, x) && x != name
  {
  }

  /** After a successful save the listed names are the old ones plus `name`. */
  lemma SaveGrowsListing(d: Disk, name: string)
    requires Saved(d, name).outcome.Pass?
    ensures forall x :: IsListed(Saved(d, name).disk, x) <==> IsListed(d, x) || x == name
  {
  }

  /** Saving and then applying the same name succeeds and changes nothing more:
      the live file already holds what the snapshot holds. */
  lemma SaveThenApply(d: Disk, name: string)
    requires Saved(d, name).outcome.Pass?
    ensures var saved := Saved(d, name).disk;
      Applied(saved, name) == Effect(Pass, saved)
  {
  }

  /** Applying `a` and then saving under `b` makes `b` a copy of `a`. */
  lemma ApplyThenSave(d: Disk, a: string, b: string)
    requires d.Valid()
    requires Applied(d, a).outcome.Pass?
    requires !(Utf8(b) in d.dir && d.dir[Utf8(b)].Directory?)
    ensures var applied := Applied(d, a).disk;
      && Saved(applied, b).outcome.Pass?
      && Saved(applied, b).disk.dir[Utf8(b)] == d.dir[Utf8(a)]
  {
  }

  /** Deleting a snapshot just saved under a fresh name undoes the save. */
  lemma SaveThenDelete(d: Disk, name: string)
    requires Utf8(name) !in d.dir
    requires Saved(d, name).outcome.Pass?
    ensures Deleted(Saved(d, name).disk, name) == Effect(Pass, d)
  {
    assert Saved(d, name).disk.dir - {Utf8(name)} == d.dir;
  }

  /** Saving twice under one name is the same as saving once: the second save
      overwrites with the same contents and does not fail. */
  lemma SaveIdempotent(d: Disk, name: string)
    requires Saved(d, name).outcome.Pass?
    ensures Saved(Saved(d, name).disk, name) == Saved(d, name)
  {
  }
}
