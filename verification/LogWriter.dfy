/** The logger: starting up (with recovery of a lost chain head), sealing, rotating and appending
    (internal/eventlog/event.go, internal/eventlog/integrity.go). */
module LogWriter {
  import opened Wire
  import opened Chain
  import opened VerifyLog
  import opened LogDisk

  // ---------------------------------------------------------------- recovering a lost head

  /** The line scanner's buffer; a line and its newline must fit, or the rest of the file is lost. */
  const SCAN_LIMIT: nat := 0x10_0000

  predicate Fits(line: string) {
    |line| + 1 <= SCAN_LIMIT
  }

  predicate Usable(p: Primitives, raw: string) {
    IsChain(p, raw) && At(p, raw).hash != "" && At(p, raw).chainID != ""
  }

  function StateFrom(e: Event, key: string, algo: string): ChainState {
    ChainState(e.chainID, e.seqNo, e.hash, e.hmac, algo, false, key != "")
  }

  function RecoverLines(p: Primitives, key: string, algo: string, acc: Option<ChainState>,
                        lines: seq<string>): Option<ChainState>
    decreases |lines|
  {
    if lines == [] || !Fits(lines[0]) then acc
    else
      var found := if Usable(p, lines[0]) then Some(StateFrom(At(p, lines[0]), key, algo)) else acc;
      RecoverLines(p, key, algo, found, lines[1..])
  }

  function RecoverFiles(p: Primitives, key: string, algo: string, acc: Option<ChainState>,
                        files: seq<LogFile>): Option<ChainState>
    decreases |files|
  {
    if files == [] then acc
    else RecoverFiles(p, key, algo, RecoverLines(p, key, algo, acc, files[0].lines), files[1..])
  }

  /** The current file is listed once among the rotated files and once more at the end. */
  function RecoverFromLog(p: Primitives, key: string, algo: string, d: Disk): Option<ChainState> {
    RecoverFiles(p, key, algo, None,
                 RotatedFiles(d) + if d.current.Some? then [LogFile(d.current.value, false)] else [])
  }

  method RecoverOneFile(p: Primitives, key: string, algo: string, acc: Option<ChainState>, lines: seq<string>)
    returns (found: Option<ChainState>)
    ensures found == RecoverLines(p, key, algo, acc, lines)
  {
    found := acc;
    var i := 0;
    while i < |lines| && Fits(lines[i])
      invariant 0 <= i <= |lines|
      invariant RecoverLines(p, key, algo, found, lines[i..]) == RecoverLines(p, key, algo, acc, lines)
    {
      if Usable(p, lines[i]) {
        found := Some(StateFrom(At(p, lines[i]), key, algo));
      }
      assert lines[i..][1..] == lines[i + 1..];
      i := i + 1;
    }
  }

  method Recover(p: Primitives, key: string, algo: string, d: Disk) returns (found: Option<ChainState>)
    ensures found == RecoverFromLog(p, key, algo, d)
  {
    var files := RotatedFiles(d);
    if d.current.Some? {
      files := files + [LogFile(d.current.value, false)];
    }
    ghost var all := RotatedFiles(d) + if d.current.Some? then [LogFile(d.current.value, false)] else [];
    assert files == all;
    found := None;
    for i := 0 to |files|
      invariant RecoverFiles(p, key, algo, found, files[i..]) == RecoverFiles(p, key, algo, None, files)
    {
      assert files[i..][1..] == files[i + 1..];
      found := RecoverOneFile(p, key, algo, found, files[i].lines);
    }
  }

  /** The head a starting writer works from. */
  function InitialState(p: Primitives, key: string, algo: string, d: Disk): ChainState {
    var s := if d.state.Some? then d.state.value else NO_STATE;
    if s.chainID == "" || s.lastHash == "" then
      match RecoverFromLog(p, key, algo, d)
      case Some(r) => r
      case None => s
    else s
  }

  // ---------------------------------------------------------------- one write

  datatype Config = Config(chain: bool, algo: string, maxBytes: int, maxBackups: int)
  {
    function Algorithm(): string {
      if algo == "" then "sha256" else algo
    }
  }

  /** A running logger and its disk. */
  datatype World = World(disk: Disk, config: Config, state: ChainState)

  /** Which of the fallible effects of one write succeed: saving the state file, moving the
      current file aside, and opening the log and appending to it. */
  datatype Effects = Effects(saved: bool, moved: bool, appended: bool)

  function Started(p: Primitives, key: string, d: Disk, config: Config): World {
    World(d, config, if config.chain then InitialState(p, key, config.Algorithm(), d) else NO_STATE)
  }

  function Size(lines: seq<string>): nat {
    if lines == [] then 0 else Size(lines[..|lines| - 1]) + |lines[|lines| - 1]| + 1
  }

  predicate NeedsRotation(d: Disk, maxBytes: int, incoming: nat) {
    maxBytes > 0 && d.current.Some? && Size(d.current.value) + incoming > maxBytes
  }

  /** An event ready to be appended: as sealed or as given, its line, and the head after it. */
  datatype Prepared = Prepared(event: Event, raw: string, next: ChainState)

  /** None when the event cannot be sealed or encoded. */
  function Prepare(p: Primitives, key: string, w: World, e: Event, freshID: string): Option<Prepared> {
    if w.config.chain then
      match SealChain(p, w.state, e, key, w.config.Algorithm(), freshID)
      case SealError => None
      case Sealed(event, raw, next) => Some(Prepared(event, raw, next))
    else
      match p.marshal(e)
      case None => None
      case Some(raw) => Some(Prepared(e, raw, w.state))
  }

  function Saved(w: World, next: ChainState, fx: Effects): Disk {
    if w.config.chain && fx.saved then w.disk.(state := Some(next)) else w.disk
  }

  function RotatedDisk(d: Disk, config: Config, incoming: nat, moved: bool): Disk {
    if NeedsRotation(d, config.maxBytes, incoming) then Rotate(d, KeepCount(config.maxBackups), moved) else d
  }

  function RotatedConfig(d: Disk, config: Config, incoming: nat): Config {
    if NeedsRotation(d, config.maxBytes, incoming) then config.(maxBackups := KeepCount(config.maxBackups)) else config
  }

  predicate Lands(d: Disk, config: Config, incoming: nat, fx: Effects) {
    fx.appended && (NeedsRotation(d, config.maxBytes, incoming) ==> fx.moved)
  }

  function Appended(d: Disk, raw: string): Disk {
    d.(current := Some(d.Current() + [raw]))
  }

  /** Rotate if needed, then append. */
  function Placed(d: Disk, config: Config, raw: string, fx: Effects): Disk {
    var rotated := RotatedDisk(d, config, |raw| + 1, fx.moved);
    if Lands(d, config, |raw| + 1, fx) then Appended(rotated, raw) else rotated
  }

  /** What follows sealing: save the head, rotate, append. */
  function Commit(w: World, raw: string, next: ChainState, fx: Effects): World {
    var d := Saved(w, next, fx);
    World(Placed(d, w.config, raw, fx), RotatedConfig(d, w.config, |raw| + 1), next)
  }

  /** Write: the head moves before the line reaches the disk. */
  function WriteStep(p: Primitives, key: string, w: World, e: Event, freshID: string, fx: Effects): World {
    match Prepare(p, key, w, e, freshID)
    case None => w
    case Some(x) => Commit(w, x.raw, x.next, fx)
  }

  // ---------------------------------------------------------------- the logger object

  class Store {
    var backups: Backups
    var current: Option<seq<string>>
    var state: Option<ChainState>

    constructor ()
      ensures View() == EMPTY_DISK
    {
      backups, current, state := map[], None, None;
    }

    function View(): Disk
      reads this
    {
      Disk(backups, current, state)
    }

    method Remove(k: nat)
      modifies this`backups
      ensures backups == old(backups) - {k}
    {
      backups := backups - {k};
    }

    /** Renaming onto a file that exists would destroy it; no caller does. */
    method Rename(src: nat, dst: nat)
      requires src in backups && dst !in backups
      modifies this`backups
      ensures backups == (old(backups) - {src})[dst := old(backups)[src]]
    {
      backups := (backups - {src})[dst := backups[src]];
    }

    method MoveCurrent()
      requires current.Some? && 1 !in backups
      modifies this`backups, this`current
      ensures backups == old(backups)[1 := old(current).value] && current == None
    {
      backups, current := backups[1 := current.value], None;
    }

    method Append(raw: string)
      modifies this`current
      ensures View() == Appended(old(View()), raw)
    {
      current := Some((if current.Some? then current.value else []) + [raw]);
    }
  }

  class Logger {
    const p: Primitives
    const key: string
    const store: Store
    const chain: bool
    const algo: string
    const maxBytes: int
    var maxBackups: int
    var state: ChainState

    ghost function View(): World
      reads this, store
    {
      World(store.View(), Config(chain, algo, maxBytes, maxBackups), state)
    }

    constructor (p: Primitives, key: string, store: Store, config: Config)
      ensures this.p == p && this.key == key && this.store == store
      ensures View() == Started(p, key, store.View(), config)
    {
      this.p, this.key, this.store := p, key, store;
      chain, algo, maxBytes, maxBackups := config.chain, config.algo, config.maxBytes, config.maxBackups;
      state := NO_STATE;
      new;
      if config.chain {
        state := if store.state.Some? then store.state.value else NO_STATE;
        if state.chainID == "" || state.lastHash == "" {
          var found := Recover(p, key, config.Algorithm(), store.View());
          if found.Some? {
            state := found.value;
          }
        }
      }
    }

    method RotateIfNeeded(incoming: nat, moved: bool) returns (ok: bool)
      modifies this`maxBackups, store`backups, store`current
      ensures var d, c := old(store.View()), old(View()).config;
              && store.View() == RotatedDisk(d, c, incoming, moved)
              && View().config == RotatedConfig(d, c, incoming)
              && (ok <==> NeedsRotation(d, c.maxBytes, incoming) ==> moved)
    {
      if maxBytes <= 0 || store.current.None? {
        return true;
      }
      var size := TotalSize(store.current.value);
      if size + incoming <= maxBytes {
        return true;
      }
      if maxBackups <= 0 {
        maxBackups := 1;
      }
      store.Remove(maxBackups);
      ghost var b := store.backups;
      var i := maxBackups - 1;
      while i >= 1
        invariant 0 <= i < maxBackups
        invariant i + 1 !in store.backups
        invariant ShiftUp(store.backups, i) == ShiftUp(b, maxBackups - 1)
        modifies store`backups
      {
        if i in store.backups {
          store.Rename(i, i + 1);
        }
        i := i - 1;
      }
      ok := moved;
      if moved {
        store.MoveCurrent();
      }
    }

    method Write(e: Event, freshID: string, fx: Effects) returns (ok: bool)
      modifies this`maxBackups, this`state, store
      ensures View() == WriteStep(p, key, old(View()), e, freshID, fx)
      ensures ok <==> && Prepare(p, key, old(View()), e, freshID).Some?
                      && Lands(old(View()).disk, old(View()).config,
                               |Prepare(p, key, old(View()), e, freshID).value.raw| + 1, fx)
    {
      var raw: string;
      if chain {
        match SealChain(p, state, e, key, if algo == "" then "sha256" else algo, freshID) {
          case SealError => return false;
          case Sealed(_, line, next) =>
            state := next;
            if fx.saved {
              store.state := Some(next);
            }
            raw := line;
        }
      } else {
        match p.marshal(e) {
          case None => return false;
          case Some(line) => raw := line;
        }
      }
      ok := RotateIfNeeded(|raw| + 1, fx.moved);
      if !ok || !fx.appended {
        return false;
      }
      store.Append(raw);
    }
  }

  method TotalSize(lines: seq<string>) returns (n: nat)
    ensures n == Size(lines)
  {
    n := 0;
    for i := 0 to |lines|
      invariant n == Size(lines[..i])
    {
      assert lines[..i + 1][..i] == lines[..i];
      n := n + |lines[i]| + 1;
    }
    assert lines[..|lines|] == lines;
  }
}
