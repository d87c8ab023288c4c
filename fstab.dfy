/** Reading /etc/fstab: which filesystem names the partitioner knows, and
    how each line of the file is sorted into the entries it edits and the
    lines it keeps as they are. */
module Fstab {
  import opened Wrappers
  import opened Text

  /** The filesystem types a partition can be made with. */
  datatype FsType = Ext4 | Ext3 | Ext2 | Xfs | Vfat

  /** `str()` of a filesystem type: its name. */
  function Name(t: FsType): string
  {
    match t
    case Ext4 => "ext4"
    case Ext3 => "ext3"
    case Ext2 => "ext2"
    case Xfs => "xfs"
    case Vfat => "vfat"
  }

  /** The types `_valid_filesystem` tries, in its order (the unnamed
      type at the head of `_fs_types` is skipped). */
  const FS_TYPES: seq<FsType> := [Ext4, Ext3, Ext2, Xfs, Vfat]

  /** The first type from index k on whose name is f. */
  function NamedFrom(f: string, k: nat): (r: Option<FsType>)
    requires k <= |FS_TYPES|
    decreases |FS_TYPES| - k
  {
    if k == |FS_TYPES| then None
    else if f == Name(FS_TYPES[k]) then Some(FS_TYPES[k])
    else NamedFrom(f, k + 1)
  }

  /** The type `_valid_filesystem(f)` gives. */
  function Named(f: string): Option<FsType>
  {
    NamedFrom(f, 0)
  }

  /** A name picks out exactly the type that has it, and a name of no
      type picks out none. */
  lemma NamedIsName(f: string, t: FsType)
    ensures Named(f) == Some(t) <==> Name(t) == f
  {
    assert FS_TYPES[0] == Ext4 && FS_TYPES[1] == Ext3 && FS_TYPES[2] == Ext2;
    assert FS_TYPES[3] == Xfs && FS_TYPES[4] == Vfat;
  }

  /** `_valid_filesystem(f)`: the loop over the known types. */
  method ValidFilesystem(f: string) returns (r: Option<FsType>)
    ensures r == Named(f)
  {
    for k := 0 to |FS_TYPES|
      invariant NamedFrom(f, k) == Named(f)
    {
      if f == Name(FS_TYPES[k]) {
        return Some(FS_TYPES[k]);
      }
    }
    return None;
  }

  /** The mount point, type, options and the dump and pass fields of a
      device's line. */
  datatype Entry = Entry(mount: string, fs: FsType, opts: string, dump: string, pass: string)

  /** `(info, extra)`: the entries by device, and the lines kept as
      written. */
  datatype Table = Table(info: map<string, Entry>, extra: seq<string>)

  /** Too few fields on a line (`IndexError`). */
  datatype FstabErr = IndexError

  /** What `_read_fstab` makes of one line. */
  datatype Kind =
    | Blank                        // nothing but white space: dropped
    | Comment                      // starts with "#": kept
    | RootFs                       // the device is "rootfs": dropped
    | Mount(dev: string, e: Entry) // a known filesystem type: an entry
    | Unknown                      // any other line: kept
    | Short                        // a field it reads is missing

  function Classify(l: string): Kind
  {
    var s := Strip(l);
    if s == [] then Blank
    else if s[0] == '#' then Comment
    else
      var w := Words(l);
      if |w| < 1 then Short
      else if w[0] == "rootfs" then RootFs
      else if |w| < 3 then Short
      else match Named(w[2])
        case None => Unknown
        case Some(fs) => if |w| < 6 then Short else Mount(w[0], Entry(w[1], fs, w[3], w[4], w[5]))
  }

  /** The table after one more line l, of kind c. */
  function Read(t: Table, l: string, c: Kind): Result<Table, FstabErr>
  {
    match c
    case Blank => Ok(t)
    case RootFs => Ok(t)
    case Comment => Ok(t.(extra := t.extra + [l]))
    case Unknown => Ok(t.(extra := t.extra + [l]))
    case Mount(d, e) => Ok(t.(info := t.info[d := e]))
    case Short => Err(IndexError)
  }

  /** The kind of every line. */
  function Kinds(lines: seq<string>): (r: seq<Kind>)
    ensures |r| == |lines| && forall i :: 0 <= i < |lines| ==> r[i] == Classify(lines[i])
  {
    seq(|lines|, i requires 0 <= i < |lines| => Classify(lines[i]))
  }

  /** The table after the first k lines, line i being of kind kinds[i]. */
  function ScanKinds(lines: seq<string>, kinds: seq<Kind>, k: nat): Result<Table, FstabErr>
    requires |kinds| == |lines| && k <= |lines|
  {
    if k == 0 then Ok(Table(map[], []))
    else match ScanKinds(lines, kinds, k - 1)
      case Err(e) => Err(e)
      case Ok(t) => Read(t, lines[k - 1], kinds[k - 1])
  }

  /** The table after the first k lines of the file. */
  function Scan(lines: seq<string>, k: nat): Result<Table, FstabErr>
    requires k <= |lines|
  {
    ScanKinds(lines, Kinds(lines), k)
  }

  /** `_read_fstab(f)`; no file gives an empty table. */
  function ReadAll(f: Option<seq<string>>): Result<Table, FstabErr>
  {
    match f
    case None => Ok(Table(map[], []))
    case Some(lines) => Scan(lines, |lines|)
  }

  /** `_read_fstab(f)`: the loop over the lines of the file. */
  method ReadFstab(f: Option<seq<string>>) returns (r: Result<Table, FstabErr>)
    ensures r == ReadAll(f)
  {
    if f.None? {
      return Ok(Table(map[], []));
    }
    var lines := f.value;
    var info: map<string, Entry> := map[];
    var extra: seq<string> := [];
    for k := 0 to |lines|
      invariant Scan(lines, k) == Ok(Table(info, extra))
    {
      var next := ReadLine(info, extra, lines[k]);
      if next.Err? {
        ErrStays(lines, k + 1);
        return next;
      }
      info, extra := next.value.info, next.value.extra;
    }
    return Ok(Table(info, extra));
  }

  /** The body of the loop of `_read_fstab` for line l. */
  method ReadLine(info: map<string, Entry>, extra: seq<string>, l: string) returns (r: Result<Table, FstabErr>)
    ensures r == Read(Table(info, extra), l, Classify(l))
  {
    var s := Strip(l);
    if s == [] {
      return Ok(Table(info, extra));
    }
    if s[0] == '#' {
      return Ok(Table(info, extra + [l]));
    }
    var w := Words(l);
    if |w| < 1 {
      return Err(IndexError);
    }
    if w[0] == "rootfs" {
      return Ok(Table(info, extra));
    }
    if |w| < 3 {
      return Err(IndexError);
    }
    var fs := ValidFilesystem(w[2]);
    if fs.Some? {
      if |w| < 6 {
        return Err(IndexError);
      }
      return Ok(Table(info[w[0] := Entry(w[1], fs.value, w[3], w[4], w[5])], extra));
    }
    return Ok(Table(info, extra + [l]));
  }

  /** The lines kept as written, line i being of kind kinds[i]: comments
      and lines of no known type. */
  function KeptKinds(lines: seq<string>, kinds: seq<Kind>): seq<string>
    requires |kinds| == |lines|
  {
    if lines == [] then []
    else
      var n := |lines| - 1;
      KeptKinds(lines[..n], kinds[..n]) + (if kinds[n].Comment? || kinds[n].Unknown? then [lines[n]] else [])
  }

  /** The lines of the file kept as written. */
  function Kept(lines: seq<string>): seq<string>
  {
    KeptKinds(lines, Kinds(lines))
  }

  /** Line l is an entry for device d. */
  predicate MountOf(l: string, d: string)
  {
    Classify(l).Mount? && Classify(l).dev == d
  }

  /** A line of kind c is an entry for device d. */
  predicate IsMount(c: Kind, d: string)
  {
    c.Mount? && c.dev == d
  }

  lemma {:induction false} ScanKindsOk(lines: seq<string>, kinds: seq<Kind>, k: nat)
    requires |kinds| == |lines| && k <= |lines|
    ensures ScanKinds(lines, kinds, k).Ok? <==> forall i :: 0 <= i < k ==> !kinds[i].Short?
  {
    if k > 0 {
      ScanKindsOk(lines, kinds, k - 1);
    }
  }

  /** The file is read unless a line lacks a field it needs. */
  lemma ScanOk(lines: seq<string>, k: nat)
    requires k <= |lines|
    ensures Scan(lines, k).Ok? <==> forall i :: 0 <= i < k ==> !Classify(lines[i]).Short?
  {
    ScanKindsOk(lines, Kinds(lines), k);
  }

  lemma {:induction false} ScanKindsKept(lines: seq<string>, kinds: seq<Kind>, k: nat)
    requires |kinds| == |lines| && k <= |lines| && ScanKinds(lines, kinds, k).Ok?
    ensures ScanKinds(lines, kinds, k).value.extra == KeptKinds(lines[..k], kinds[..k])
  {
    if k > 0 {
      ScanKindsKept(lines, kinds, k - 1);
      assert lines[..k][..k - 1] == lines[..k - 1];
      assert kinds[..k][..k - 1] == kinds[..k - 1];
    }
  }

  /** The kept lines are the comments and the lines of unknown type, in
      the order of the file. */
  lemma ScanKept(lines: seq<string>, k: nat)
    requires k <= |lines| && Scan(lines, k).Ok?
    ensures Scan(lines, k).value.extra == Kept(lines[..k])
  {
    ScanKindsKept(lines, Kinds(lines), k);
    assert Kinds(lines)[..k] == Kinds(lines[..k]);
  }

  /** An error ends the reading: no later line undoes it. */
  lemma {:induction false} ErrStays(lines: seq<string>, k: nat)
    requires k <= |lines| && Scan(lines, k) == Err(IndexError)
    ensures Scan(lines, |lines|) == Err(IndexError)
    decreases |lines| - k
  {
    if k < |lines| {
      ErrStays(lines, k + 1);
    }
  }

  lemma {:induction false} ScanKindsHas(lines: seq<string>, kinds: seq<Kind>, k: nat, d: string)
    requires |kinds| == |lines| && k <= |lines| && ScanKinds(lines, kinds, k).Ok?
    ensures d in ScanKinds(lines, kinds, k).value.info <==> exists i :: 0 <= i < k && IsMount(kinds[i], d)
  {
    if k > 0 {
      ScanKindsHas(lines, kinds, k - 1, d);
      if !IsMount(kinds[k - 1], d) {
        assert (exists i :: 0 <= i < k && IsMount(kinds[i], d)) ==
          (exists i :: 0 <= i < k - 1 && IsMount(kinds[i], d));
      }
    }
  }

  /** A device has an entry exactly when some line is an entry for it. */
  lemma ScanHas(lines: seq<string>, k: nat, d: string)
    requires k <= |lines| && Scan(lines, k).Ok?
    ensures d in Scan(lines, k).value.info <==> exists i :: 0 <= i < k && MountOf(lines[i], d)
  {
    var kinds := Kinds(lines);
    ScanKindsHas(lines, kinds, k, d);
    if d in Scan(lines, k).value.info {
      var i :| 0 <= i < k && IsMount(kinds[i], d);
      assert MountOf(lines[i], d);
    }
    if exists i :: 0 <= i < k && MountOf(lines[i], d) {
      var i :| 0 <= i < k && MountOf(lines[i], d);
      assert IsMount(kinds[i], d);
    }
  }

  lemma {:induction false} ScanKindsLast(lines: seq<string>, kinds: seq<Kind>, k: nat, d: string, i: nat)
    requires |kinds| == |lines| && i < k <= |lines| && ScanKinds(lines, kinds, k).Ok?
    requires IsMount(kinds[i], d) && forall j :: i < j < k ==> !IsMount(kinds[j], d)
    ensures d in ScanKinds(lines, kinds, k).value.info && ScanKinds(lines, kinds, k).value.info[d] == kinds[i].e
  {
    if i < k - 1 {
      ScanKindsLast(lines, kinds, k - 1, d, i);
    }
  }

  /** A device's entry is that of the last line that is an entry for it. */
  lemma ScanLast(lines: seq<string>, k: nat, d: string, i: nat)
    requires i < k <= |lines| && Scan(lines, k).Ok?
    requires MountOf(lines[i], d) && forall j :: i < j < k ==> !MountOf(lines[j], d)
    ensures d in Scan(lines, k).value.info && Scan(lines, k).value.info[d] == Classify(lines[i]).e
  {
    var kinds := Kinds(lines);
    forall j | i < j < k
      ensures !IsMount(kinds[j], d)
    {
      assert !MountOf(lines[j], d);
    }
    ScanKindsLast(lines, kinds, k, d, i);
  }
}
