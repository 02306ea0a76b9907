/**
 * The local cache of the worker id: one file, `work_id.properties`, under a directory
 * that depends on the service name and the port. `mountLocalWordId` overwrites it with
 * `workerId=<n>`; when registration fails, the file is read back with
 * `java.util.Properties` and `Integer.parseInt`.
 */
module LocalCache {
  import opened Wrappers
  import Text

  /**
   * The file system as the cache code sees it: the file's content when it exists,
   * whether its directory exists, whether `mkdirs` would create it, whether opening
   * the file for writing succeeds, and, when the write or the close after a successful
   * open throws, how many characters of the line reach the file before it does.
   */
  datatype Disk = Disk(file: Option<string>, parentExists: bool, canMakeParent: bool, writable: bool,
                       failAfter: Option<nat>)

  /**
   * A disk on which the mount writes the file: it or its directory exists or can be made,
   * it opens for writing, and the write and the close go through.
   */
  predicate CacheWritable(d: Disk) {
    (d.file.Some? || d.parentExists || d.canMakeParent) && d.writable && d.failAfter.None?
  }

  /** The disk after a mount, and whether the mount threw. */
  datatype Mounted = Mounted(disk: Disk, thrown: bool)

  const CACHE_KEY: string := "workerId"

  /** `String.format("workerId=%d", workId)` */
  function CacheLine(workerId: int): string {
    CACHE_KEY + "=" + Text.FormatDecimal(workerId)
  }

  /**
   * `mountLocalWordId(workId)`: without the file, the directory must exist or be made;
   * if neither, nothing is written and nothing is thrown. Otherwise the file is opened
   * without append, which empties it, and `workerId=<n>` is written. A failed open, write
   * or close is an IOException rethrown as a RuntimeException; a failed open leaves the
   * file as it was, a failed write or close leaves what reached it.
   */
  function Mount(d: Disk, workerId: int): (r: Mounted)
    ensures var ready := d.file.Some? || d.parentExists || d.canMakeParent;
            (r.thrown <==> ready && !(d.writable && d.failAfter.None?))
            && (!ready ==> r.disk == d)
            && (ready && !d.writable ==> r.disk.file == d.file)
            && (ready && d.writable ==> r.disk.file.Some? && r.disk.file.value <= CacheLine(workerId))
            && (ready && d.writable && d.failAfter.None? ==> r.disk.file == Some(CacheLine(workerId)))
            && r.disk.writable == d.writable && r.disk.canMakeParent == d.canMakeParent
            && r.disk.failAfter == d.failAfter
  {
    var made := d.file.None? && !d.parentExists && d.canMakeParent;
    var d' := if made then d.(parentExists := true) else d;
    var line := CacheLine(workerId);
    if !(d.file.Some? || d.parentExists || d.canMakeParent) then Mounted(d, false)
    else if !d.writable then Mounted(d', true)
    else match d.failAfter
      case None => Mounted(d'.(file := Some(line)), false)
      case Some(k) => Mounted(d'.(file := Some(if k < |line| then line[..k] else line)), true)
  }

  /** One `key=value` line of a properties file. */
  function Entry(line: string): (string, string) {
    var i := FirstSeparator(line);
    if i < |line| then (line[..i], line[i + 1..]) else (line, "")
  }

  /** Position of the first `=` or `:`, or the length when there is none. */
  function FirstSeparator(line: string): (i: nat)
    ensures i <= |line| && (i < |line| ==> line[i] == '=' || line[i] == ':')
    ensures forall j :: 0 <= j < i ==> line[j] != '=' && line[j] != ':'
  {
    if line == [] then 0
    else if line[0] == '=' || line[0] == ':' then 0
    else 1 + FirstSeparator(line[1..])
  }

  predicate IsComment(line: string) {
    line == [] || line[0] == '#' || line[0] == '!'
  }

  /** `Properties.load`: the entries of the file, line by line, in order. */
  function Load(text: string): seq<(string, string)> {
    Entries(Lines(text))
  }

  /**
   * The lines of a properties file: a line ends at `\n`, at `\r`, or at `\r\n`. The last
   * form leaves an empty piece between the two characters, which is skipped as a blank line.
   */
  function Lines(text: string): (r: seq<string>)
    ensures forall i :: 0 <= i < |r| ==> '\n' !in r[i] && '\r' !in r[i]
  {
    LinesOf(Text.Pieces(text, '\n'))
  }

  function LinesOf(pieces: seq<string>): (r: seq<string>)
    requires forall i :: 0 <= i < |pieces| ==> '\n' !in pieces[i]
    ensures forall i :: 0 <= i < |r| ==> '\n' !in r[i] && '\r' !in r[i]
  {
    if pieces == [] then [] else Text.Pieces(pieces[0], '\r') + LinesOf(pieces[1..])
  }

  function Entries(lines: seq<string>): seq<(string, string)> {
    if lines == [] then []
    else if IsComment(lines[0]) then Entries(lines[1..])
    else [Entry(lines[0])] + Entries(lines[1..])
  }

  /** `getProperty(key)`: the value of the last entry with that key, or null. */
  function GetProperty(entries: seq<(string, string)>, key: string): (r: Option<string>)
    ensures r.None? <==> forall i :: 0 <= i < |entries| ==> entries[i].0 != key
  {
    if entries == [] then None
    else
      var last := entries[|entries| - 1];
      if last.0 == key then Some(last.1) else GetProperty(entries[..|entries| - 1], key)
  }

  /** What reading the cache yields. */
  datatype CacheRead =
    | Unavailable   // the file cannot be opened: an IOException, init returns false
    | Unparsable    // no workerId entry, or not an int: a NumberFormatException escapes init
    | Cached(workerId: int)

  /** The fallback at the end of `init`: `Integer.parseInt(properties.getProperty("workerId"))`. */
  function ReadCache(d: Disk): (r: CacheRead)
    ensures r.Cached? ==> Text.INT_MIN <= r.workerId <= Text.INT_MAX
    ensures r.Unavailable? <==> d.file.None?
  {
    match d.file
    case None => Unavailable
    case Some(text) =>
      match GetProperty(Load(text), CACHE_KEY)
      case None => Unparsable
      case Some(v) =>
        match Text.ParseInt(v)
        case None => Unparsable
        case Some(n) => Cached(n)
  }

  /** A line `key=value` whose key holds no separator is the entry (key, value). */
  lemma EntryOf(key: string, value: string)
    requires '=' !in key && ':' !in key
    ensures Entry(key + "=" + value) == (key, value)
  {
    var line := key + "=" + value;
    var i := FirstSeparator(line);
    assert line[|key|] == '=';
    assert line[..i] == key;
    assert line[i + 1..] == value;
  }

  /** The line the mount writes is one entry, `workerId` with the decimal n. */
  lemma LoadCacheLine(workerId: int)
    ensures Load(CacheLine(workerId)) == [(CACHE_KEY, Text.FormatDecimal(workerId))]
  {
    var digits := Text.FormatDecimal(workerId);
    var line := CacheLine(workerId);
    Text.FormatDecimalChars(workerId, '\n');
    Text.FormatDecimalChars(workerId, '\r');
    assert '\n' !in line && '\r' !in line by {
      assert line == CACHE_KEY + ("=" + digits);
    }
    Text.PiecesWithout(line, '\n');
    Text.PiecesWithout(line, '\r');
    assert Lines(line) == [line] by {
      assert LinesOf([line]) == Text.Pieces(line, '\r') + LinesOf([]);
    }
    EntryOf(CACHE_KEY, digits);
    assert !IsComment(line);
    assert Entries([line]) == [Entry(line)] + Entries([]);
  }

  /** Whatever the file held before, reading back after a mount gives the id that was written. */
  lemma MountThenRead(d: Disk, workerId: int)
    requires Text.INT_MIN <= workerId <= Text.INT_MAX
    requires CacheWritable(d)
    ensures !Mount(d, workerId).thrown && ReadCache(Mount(d, workerId).disk) == Cached(workerId)
    ensures CacheWritable(Mount(d, workerId).disk)
  {
    LoadCacheLine(workerId);
    Text.ParseIntFormatDecimal(workerId);
  }

  /** A file holding a prefix of the key has no `workerId` entry, or one with an empty value. */
  lemma KeyPrefixLoad(p: string)
    requires |p| <= |CACHE_KEY| && p == CACHE_KEY[..|p|]
    ensures GetProperty(Load(p), CACHE_KEY) == None || GetProperty(Load(p), CACHE_KEY) == Some("")
  {
    assert forall c :: c in p ==> c in CACHE_KEY;
    assert '\n' !in CACHE_KEY && '\r' !in CACHE_KEY && '=' !in CACHE_KEY && ':' !in CACHE_KEY;
    Text.PiecesWithout(p, '\n');
    Text.PiecesWithout(p, '\r');
    assert Lines(p) == [p] by {
      assert LinesOf([p]) == Text.Pieces(p, '\r') + LinesOf([]);
    }
    if p != [] {
      assert FirstSeparator(p) == |p|;
      assert Entries([p]) == [(p, "")] + Entries([]);
    }
  }

  /**
   * A write that throws within the key leaves a file with no int `workerId`: reading it
   * back is the NumberFormatException, not the id of an earlier run.
   */
  lemma MountTruncatedKey(d: Disk, workerId: int, k: nat)
    requires (d.file.Some? || d.parentExists || d.canMakeParent) && d.writable
    requires d.failAfter == Some(k) && k <= |CACHE_KEY|
    ensures Mount(d, workerId).thrown && ReadCache(Mount(d, workerId).disk) == Unparsable
  {
    var p := CacheLine(workerId)[..k];
    assert Mount(d, workerId).disk.file == Some(p);
    assert p == CACHE_KEY[..k];
    KeyPrefixLoad(p);
    assert Text.ParseInt("") == None;
  }

  /** A close that throws after the whole line was written still leaves the id for the fallback. */
  lemma MountCloseFails(d: Disk, workerId: int, k: nat)
    requires Text.INT_MIN <= workerId <= Text.INT_MAX
    requires (d.file.Some? || d.parentExists || d.canMakeParent) && d.writable
    requires d.failAfter == Some(k) && k >= |CacheLine(workerId)|
    ensures Mount(d, workerId).thrown && ReadCache(Mount(d, workerId).disk) == Cached(workerId)
  {
    LoadCacheLine(workerId);
    Text.ParseIntFormatDecimal(workerId);
  }

  /** Mounting twice leaves what mounting the second id once leaves: the write does not append. */
  lemma MountOverwrites(d: Disk, first: int, second: int)
    requires !Mount(d, first).thrown
    ensures Mount(Mount(d, first).disk, second).disk.file == Mount(d, second).disk.file
  {
  }
}
