/** The part of the host the build drivers touch: the file system, as a map
    from paths to entries, and the external tools, as oracles. A tool run is
    decided by its command line alone; what it printed, whether `execSync`
    threw (non-zero exit) and what it left in its output file are its
    observable effects. */
module Workspace {

  import opened Wrappers
  import opened Text

  newtype byte = x: int | 0 <= x < 256

  /** What a file holds: text written from a JavaScript string, or raw bytes
      a tool produced. */
  datatype Content = Chars(text: string) | Bytes(data: seq<byte>)

  datatype Entry = File(content: Content) | Folder

  /** Every path that exists, with what it is. */
  type Disk = map<string, Entry>

  /** `path` is `root` or lies below it. */
  predicate Under(path: string, root: string)
  {
    path == root || StartsWith(path, root + "/")
  }

  /** The disk after `rmSync(root, { recursive: true })` succeeded. */
  function Removed(d: Disk, root: string): (r: Disk)
    ensures forall p :: p in r <==> p in d && !Under(p, root)
    ensures forall p :: p in r ==> r[p] == d[p]
  {
    map p | p in d && !Under(p, root) :: d[p]
  }

  /** `readFileSync(p)`: the content of a file; it throws (None) on a missing
      path or a directory. */
  function ReadOf(d: Disk, p: string): (r: Option<Content>)
    ensures r.Some? <==> p in d && d[p].File?
  {
    if p in d && d[p].File? then Some(d[p].content) else None
  }

  /** A file's content as text (`toString()`, `readFileSync(p, "utf-8")`):
      text is itself; raw bytes are read one character per byte, which is
      exact for ASCII. */
  function AsText(c: Content): (r: string)
    ensures c.Chars? ==> r == c.text
    ensures c.Bytes? ==> |r| == |c.data| && forall k :: 0 <= k < |r| ==> r[k] as int == c.data[k] as int
  {
    match c
    case Chars(t) => t
    case Bytes(b) => seq(|b|, k requires 0 <= k < |b| => b[k] as char)
  }

  /** The observable effects of one run of an external tool. */
  datatype ToolRun = ToolRun(log: string, threw: bool, error: string, output: Option<Content>)

  /** The tools, as a function of the command line. */
  type Tools = string -> ToolRun

  /** What a task's `console` becomes: the captured log, or, when the log is
      empty, the exception's message (`readFileSync(log).toString() || error`). */
  function Console(run: ToolRun): (r: string)
    ensures run.log != "" ==> r == run.log
    ensures run.log == "" && run.threw ==> r == run.error
    ensures run.log == "" && !run.threw ==> r == ""
  {
    if run.log != "" then run.log else if run.threw then run.error else ""
  }

  /** The disk after a tool run: its log captured at `logPath`, its output
      (when it wrote one) at `target`. */
  function AfterRun(d: Disk, logPath: string, target: string, run: ToolRun): Disk
  {
    var d1 := d[logPath := File(Chars(run.log))];
    if run.output.Some? then d1[target := File(run.output.value)] else d1
  }

  /** The host file system the driver works on (Node's `fs`). */
  class FileSystem {

    var disk: Disk

    constructor(d: Disk)
      ensures disk == d
    {
      disk := d;
    }

    /** `existsSync(p)`. */
    predicate Exists(p: string)
      reads this
    {
      p in disk
    }

    /** `mkdirSync(p)`. */
    method MkDir(p: string)
      modifies this
      ensures disk == old(disk)[p := Folder]
    {
      disk := disk[p := Folder];
    }

    /** `writeFileSync(p, s)` with a JavaScript string. A directory at `p` is
        replaced; Node would throw `EISDIR` there. */
    method WriteText(p: string, s: string)
      modifies this
      ensures disk == old(disk)[p := File(Chars(s))]
    {
      disk := disk[p := File(Chars(s))];
    }

    /** `writeFileSync(p, buffer)` with bytes. A directory at `p` is replaced,
        as in `WriteText`. */
    method WriteBytes(p: string, data: seq<byte>)
      modifies this
      ensures disk == old(disk)[p := File(Bytes(data))]
    {
      disk := disk[p := File(Bytes(data))];
    }

    /** `openSync(p, 'w')`: creates or truncates a file. A directory at `p` is
        replaced, as in `WriteText`. */
    method Open(p: string)
      modifies this
      ensures disk == old(disk)[p := File(Chars(""))]
    {
      disk := disk[p := File(Chars(""))];
    }

    /** `rmSync(p, { recursive: true })`: without `force` it throws (false)
      when `p` does not exist, and then changes nothing. */
    method RemoveTree(p: string) returns (ok: bool)
      modifies this
      ensures ok <==> p in old(disk)
      ensures disk == if ok then Removed(old(disk), p) else old(disk)
    {
      ok := p in disk;
      if ok {
        disk := Removed(disk, p);
      }
    }

    /** `unlinkSync(p)`: removes a file; it throws (false) on anything else. */
    method Unlink(p: string) returns (ok: bool)
      modifies this
      ensures ok <==> p in old(disk) && old(disk)[p].File?
      ensures disk == if ok then old(disk) - {p} else old(disk)
    {
      ok := p in disk && disk[p].File?;
      if ok {
        disk := disk - {p};
      }
    }

    /** `renameSync(a, b)` of an existing path. Only the entry at `a` moves:
        the driver renames its output file, never a directory, so the
        paths below a renamed directory are not carried along. */
    method Rename(a: string, b: string)
      requires a in disk
      modifies this
      ensures disk == (old(disk) - {a})[b := old(disk)[a]]
    {
      disk := (disk - {a})[b := disk[a]];
    }

    /** `readFileSync(p)`. */
    method Read(p: string) returns (r: Option<Content>)
      ensures r == ReadOf(disk, p)
    {
      if p in disk && disk[p].File? {
        r := Some(disk[p].content);
      } else {
        r := None;
      }
    }

    /** `copyFileSync(a, b)`: throws (false) when `a` is not a file or `b`
        is a directory. */
    method Copy(a: string, b: string) returns (ok: bool)
      modifies this
      ensures ok <==> a in old(disk) && old(disk)[a].File? && (b in old(disk) ==> old(disk)[b].File?)
      ensures disk == if ok then old(disk)[b := old(disk)[a]] else old(disk)
    {
      ok := a in disk && disk[a].File? && (b in disk ==> disk[b].File?);
      if ok {
        disk := disk[b := disk[a]];
      }
    }

    /** Running `cmd` with its output sent to the already opened `logPath`
      (`execSync(cmd, { cwd, stdio: [null, out, out] })`), then reading the
      log back: the shape shared by `shell_exec`, `optimize_wasm` and
      `clean_wasm`. Returns the console text and whether `execSync` threw. */
    method Run(tools: Tools, cmd: string, logPath: string, target: string) returns (console: string, threw: bool)
      requires target != logPath
      modifies this
      ensures console == Console(tools(cmd)) && threw == tools(cmd).threw
      ensures disk == AfterRun(old(disk), logPath, target, tools(cmd))
    {
      var run := tools(cmd);
      disk := AfterRun(disk, logPath, target, run);
      var text := disk[logPath].content.text;
      threw := run.threw;
      console := if text != "" then text else if threw then run.error else "";
    }
  }
}
