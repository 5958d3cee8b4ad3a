/** The one host all resources share, and what the kernel does to it. */
module HostState {
  import opened Numbers
  import opened Engine
  import AtomicFile

  /** Texts are kept as the resources read them; paths in the first three sets fail to read, to write or to be looked
      up, commands in `broken` fail to run, and a write in place of a path in `short` stops after so many characters. */
  datatype Host = Host(
    files: map<string, string>,      // ordinary files under /etc
    sysctls: map<string, string>,    // files under /proc/sys
    procModules: string,             // /proc/modules
    procMounts: string,              // /proc/mounts
    procSwaps: string,               // /proc/swaps
    swapUnits: string,               // what `systemctl list-units --type=swap` prints
    cgroupV2: bool,
    unreadable: set<string>,
    unwritable: set<string>,
    unstattable: set<string>,
    broken: set<seq<string>>,
    short: map<string, nat>)

  /** The kernel's side of every mutation, as functions of the text before it. */
  datatype Kernel = Kernel(
    echo: (string, string) -> string,             // what a sysctl file reads back: its path, the text written
    modprobe: (string, string) -> string,         // /proc/modules once a module is loaded
    exposes: string -> map<string, string>,       // sysctl files a module brings, with their default text
    mount: (string, seq<string>) -> string,       // /proc/mounts after mounting [device, path, type, options]
    swapoff: string -> string,                    // /proc/swaps after `swapoff -a`
    swapoffUnits: string -> string,               // the unit listing after `swapoff -a`
    mask: (string, string) -> string)             // the unit listing after masking a unit

  /** The first line of every file the tool renders (in pieces, as a long literal is costly to reason about). */
  const HEADER := "# Managed by " + "node-configurator. " + "Local edits will " + "be overwritten."

  datatype FileRead = Content(text: string) | NotExist | ReadError

  function ReadFile(h: Host, path: string): FileRead {
    if path in h.unreadable then ReadError
    else if path in h.files then Content(h.files[path])
    else NotExist
  }

  /** The text, or "" when it cannot be read. */
  function ReadOrEmpty(h: Host, path: string): string {
    match ReadFile(h, path)
    case Content(text) => text
    case _ => ""
  }

  /** `WriteFileIfChanged` between two moments at which no temporary file exists: all or nothing. */
  function WriteFile(h: Host, path: string, content: string): Applied<Host> {
    match ReadFile(h, path)
    case ReadError => Applied(h, false)
    case Content(text) =>
      if text == content then Applied(h, true)
      else if path in h.unwritable then Applied(h, false)
      else Applied(h.(files := h.files[path := content]), true)
    case NotExist =>
      if path in h.unwritable then Applied(h, false) else Applied(h.(files := h.files[path := content]), true)
  }

  /** That summary is the step-by-step write, with the host's failures, when the deferred removal succeeds. */
  lemma WriteFileIsTrace(h: Host, path: string, content: string, tmp: string)
    requires tmp !in h.files && tmp != path
    ensures var f := AtomicFile.Faults(path in h.unreadable, false, false, false, false, false, path in h.unwritable, false, 0);
      var t := AtomicFile.WriteTrace(h.files, path, content, tmp, f);
      WriteFile(h, path, content) == Applied(h.(files := t.Final()), t.result.Wrote?)
  {
    var f := AtomicFile.Faults(path in h.unreadable, false, false, false, false, false, path in h.unwritable, false, 0);
    AtomicFile.WriteOutcome(h.files, path, content, tmp, f);
  }

  lemma WriteFileEffect(h: Host, path: string, content: string)
    ensures var w := WriteFile(h, path, content);
      && (w.ok ==> w.state == h.(files := h.files[path := content]) && ReadFile(w.state, path) == Content(content))
      && (!w.ok ==> w.state == h)
      && (path !in h.unreadable && path !in h.unwritable ==> w.ok)
  {
    if ReadFile(h, path) == Content(content) { assert h.files[path := content] == h.files; }
  }

  /** The two hosts have the same ordinary files outside `paths`. */
  ghost predicate SameElsewhere(a: Host, b: Host, paths: set<string>) {
    forall p: string :: p !in paths ==> AtomicFile.Lookup(a.files, p) == AtomicFile.Lookup(b.files, p)
  }

  /** Whatever the outcome, a write changes nothing but its file, and leaves there the old or the new content. */
  lemma WriteFileFrame(h: Host, path: string, content: string)
    ensures var h' := WriteFile(h, path, content).state;
      && h' == h.(files := h'.files) && SameElsewhere(h', h, {path})
      && (AtomicFile.Lookup(h'.files, path) == AtomicFile.Lookup(h.files, path) || AtomicFile.Lookup(h'.files, path) == Some(content))
  {
    WriteFileEffect(h, path, content);
  }
}
