/** Directory objects and the checks on one object's own entries. */
module Directories {
  import opened Wrappers
  import opened Digests
  import Namespaces

  datatype DirectoryNode = DirectoryNode(name: string, mode: nat, digest: Digest)
  datatype FileNode = FileNode(name: string, mode: nat, digest: Digest, executable: bool)
  datatype SymlinkNode = SymlinkNode(name: string, mode: nat, target: string)

  datatype Directory = Directory(version: nat, directories: seq<DirectoryNode>, files: seq<FileNode>,
      symlinks: seq<SymlinkNode>)

  datatype EntryError = InvalidEntry | DuplicateEntry | InvalidTarget

  /** A name and mode as any of the three kinds of entry carries them. */
  datatype Listed = Listed(name: string, mode: nat)

  const MAX_MODE: nat := 4095 // 0o7777

  predicate SafeName(name: string) {
    && name != "" && name != "." && name != ".."
    && '/' !in name && '\\' !in name && '\0' !in name
  }

  predicate Safe(entry: Listed) {
    SafeName(entry.name) && entry.mode <= MAX_MODE
  }

  predicate SafeTarget(target: string) {
    target != "" && '\0' !in target
  }

  /** Every entry of a directory, in the order the checks visit them. */
  function Listing(dir: Directory): (l: seq<Listed>)
    ensures |l| == |dir.directories| + |dir.files| + |dir.symlinks|
  {
    seq(|dir.directories|, i requires 0 <= i < |dir.directories| =>
        Listed(dir.directories[i].name, dir.directories[i].mode))
    + seq(|dir.files|, i requires 0 <= i < |dir.files| => Listed(dir.files[i].name, dir.files[i].mode))
    + seq(|dir.symlinks|, i requires 0 <= i < |dir.symlinks| => Listed(dir.symlinks[i].name, dir.symlinks[i].mode))
  }

  predicate Usable(listing: seq<Listed>) {
    && (forall i :: 0 <= i < |listing| ==> Safe(listing[i]))
    && (forall i, j :: 0 <= i < j < |listing| ==> listing[i].name != listing[j].name)
  }

  /** Safe names and modes, no name used twice across the three kinds, and sane link targets. */
  predicate EntriesValid(dir: Directory) {
    Usable(Listing(dir)) && forall s :: s in dir.symlinks ==> SafeTarget(s.target)
  }

  /** Admitting one more entry; `names` holds exactly the names of the listing so far. */
  method ValidateEntry(names: set<string>, entry: Listed, ghost before: seq<Listed>)
      returns (r: Result<set<string>, EntryError>)
    requires Usable(before) && names == set l | l in before :: l.name
    ensures r.Ok? <==> Usable(before + [entry])
    ensures r.Ok? ==> r.value == set l | l in before + [entry] :: l.name
    ensures r == Err(InvalidEntry) <==> !Safe(entry)
    ensures r == Err(DuplicateEntry) <==> Safe(entry) && entry.name in names
  {
    hide SafeName;
    ghost var longer := before + [entry];
    assert longer[|before|] == entry && forall i :: 0 <= i < |before| ==> longer[i] == before[i];
    if !SafeName(entry.name) || entry.mode > MAX_MODE {
      return Err(InvalidEntry);
    }
    if entry.name in names {
      assert exists i :: 0 <= i < |before| && longer[i].name == entry.name;
      return Err(DuplicateEntry);
    }
    assert forall l :: l in longer <==> l in before || l == entry;
    r := Ok(names + {entry.name});
  }

  lemma UsablePrefix(listing: seq<Listed>, k: nat)
    requires k <= |listing| && Usable(listing)
    ensures Usable(listing[..k])
  {
    hide Safe;
  }

  lemma ListingAt(dir: Directory, k: nat)
    requires k < |Listing(dir)|
    ensures Listing(dir)[..k + 1] == Listing(dir)[..k] + [Listing(dir)[k]]
    ensures k < |dir.directories| ==> Listing(dir)[k] == Listed(dir.directories[k].name, dir.directories[k].mode)
    ensures forall i :: 0 <= i < |dir.files| && k == |dir.directories| + i ==>
            Listing(dir)[k] == Listed(dir.files[i].name, dir.files[i].mode)
    ensures forall i :: 0 <= i < |dir.symlinks| && k == |dir.directories| + |dir.files| + i ==>
            Listing(dir)[k] == Listed(dir.symlinks[i].name, dir.symlinks[i].mode)
  {
  }

  lemma EntryRefused(dir: Directory, k: nat)
    requires k <= |Listing(dir)| && !Usable(Listing(dir)[..k])
    ensures !EntriesValid(dir)
  {
    hide Safe, Listing;
    if Usable(Listing(dir)) {
      UsablePrefix(Listing(dir), k);
    }
  }

  /** `validate_directory_entries`. */
  method ValidateDirectoryEntries(dir: Directory) returns (r: Result<(), EntryError>)
    ensures r.Ok? <==> EntriesValid(dir)
  {
    hide Usable, Listing, SafeTarget;
    var names: set<string> := {};
    ghost var listing := Listing(dir);
    NothingListed(dir);
    for i := 0 to |dir.directories|
      invariant Usable(listing[..i]) && names == set l | l in listing[..i] :: l.name
    {
      ListingAt(dir, i);
      var entry := ValidateEntry(names, Listed(dir.directories[i].name, dir.directories[i].mode), listing[..i]);
      if entry.Err? {
        EntryRefused(dir, i + 1);
        return Err(entry.error);
      }
      names := entry.value;
    }
    ghost var n := |dir.directories|;
    for i := 0 to |dir.files|
      invariant Usable(listing[..n + i]) && names == set l | l in listing[..n + i] :: l.name
    {
      ListingAt(dir, n + i);
      var entry := ValidateEntry(names, Listed(dir.files[i].name, dir.files[i].mode), listing[..n + i]);
      if entry.Err? {
        EntryRefused(dir, n + i + 1);
        return Err(entry.error);
      }
      names := entry.value;
    }
    n := n + |dir.files|;
    for i := 0 to |dir.symlinks|
      invariant Usable(listing[..n + i]) && names == set l | l in listing[..n + i] :: l.name
      invariant forall j :: 0 <= j < i ==> SafeTarget(dir.symlinks[j].target)
    {
      ListingAt(dir, n + i);
      var entry := ValidateEntry(names, Listed(dir.symlinks[i].name, dir.symlinks[i].mode), listing[..n + i]);
      if entry.Err? {
        EntryRefused(dir, n + i + 1);
        return Err(entry.error);
      }
      names := entry.value;
      if !SafeTarget(dir.symlinks[i].target) {
        return Err(InvalidTarget);
      }
    }
    assert listing[..|listing|] == listing;
    r := Ok(());
  }

  lemma NothingListed(dir: Directory)
    ensures Usable(Listing(dir)[..0]) && (set l | l in Listing(dir)[..0] :: l.name) == {}
  {
  }

  /** A name is safe exactly when it is one path component, its own lexical resolution, without a
      backslash or a NUL. */
  lemma SafeNameExactly(name: string)
    ensures SafeName(name) <==>
            && Namespaces.Split(name) == [name] && Namespaces.Resolve([name]) == [name]
            && '\\' !in name && '\0' !in name
  {
    Namespaces.SplitPlain(name);
    Namespaces.ComponentsAreResolved([name]);
    assert Namespaces.ValidComponents([name]) <==> Namespaces.ValidComponent([name][0]);
    hide Namespaces.Split, Namespaces.Resolve;
  }

  /** So a path of accepted names stays below its root: it is its own lexical resolution, and its
      text splits back into exactly those names. */
  lemma SafePathsStay(names: seq<string>)
    requires |names| >= 1 && forall i :: 0 <= i < |names| ==> SafeName(names[i])
    ensures Namespaces.Split(Namespaces.Join(names)) == names && Namespaces.Resolve(names) == names
  {
    hide Namespaces.Split, Namespaces.Join, Namespaces.Resolve;
    forall i | 0 <= i < |names|
      ensures '/' !in names[i] && Namespaces.ValidComponent(names[i])
    {
      assert SafeName(names[i]);
    }
    Namespaces.SplitJoin(names);
    Namespaces.ComponentsAreResolved(names);
  }
}
