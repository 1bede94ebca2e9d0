/** The command registry of exao_dap_client/commands/__init__.py: `register` files a command
    class under its key in the module-level `REGISTRY` dict, and loading the package registers
    `Sync` and then `Ingest`. */
module CommandRegistry {
  import opened Wrappers
  import Text

  /** A command class, as `register` sees it: its `__name__`, its `name` attribute (None when it
      inherits `BaseCommand.name`) and its `help`. */
  datatype CommandClass = CommandClass(className: string, name: Option<string>, help: Option<string>)

  /** `Sync` of exao_dap_client/commands/sync.py, which sets `name = "sync"`. */
  const SyncCommand := CommandClass("Sync", Some("sync"), Some("Sync a local filesystem directory to an iRODS collection"))

  /** `Ingest` of exao_dap_client/commands/ingest.py, which leaves `name` as `BaseCommand` has it. */
  const IngestCommand := CommandClass("Ingest", None, Some("Turn a Data Store path into a registered dataset"))

  /** The key `register` files a class under: its `name` when that is not None, otherwise its
      lowercased class name. */
  function Key(c: CommandClass): string
  {
    match c.name
    case Some(n) => n
    case None => Text.Lower(c.className)
  }

  /** `REGISTRY` after `register(c)`. */
  function Registered(registry: map<string, CommandClass>, c: CommandClass): map<string, CommandClass>
  {
    registry[Key(c) := c]
  }

  /** `register(c)` files `c` under its key, replacing what was there; every other entry stays
      as it was, and at most one key is added. */
  lemma {:induction false} RegisterOverwrites(registry: map<string, CommandClass>, c: CommandClass)
    ensures var r := Registered(registry, c);
            && r.Keys == registry.Keys + {Key(c)}
            && r[Key(c)] == c
            && (forall k :: k in registry && k != Key(c) ==> r[k] == registry[k])
            && |r.Keys| <= |registry.Keys| + 1
  {
    var r := Registered(registry, c);
    if Key(c) in registry {
      assert registry.Keys + {Key(c)} == registry.Keys;
    } else {
      assert |registry.Keys + {Key(c)}| == |registry.Keys| + 1;
    }
  }

  /** The key of a class with no `name` of its own is its class name in lower case. */
  lemma KeyOfUnnamed(c: CommandClass)
    requires c.name.None?
    ensures Key(c) == Text.Lower(c.className) && Text.Lower(Key(c)) == Key(c)
  {
    Text.LowerIdempotent(c.className);
  }

  /** The registry after loading the package: exactly 'sync' and 'ingest'. */
  lemma LoadedKeys()
    ensures var r := Registered(Registered(map[], SyncCommand), IngestCommand);
            r.Keys == {"sync", "ingest"} && r["sync"] == SyncCommand && r["ingest"] == IngestCommand
  {
    assert Text.Lower("Ingest") == "ingest";
  }

  /** The module-level `REGISTRY`. */
  class Registry {
    var commands: map<string, CommandClass>

    /** Loading the package: an empty `REGISTRY`, then `register(Sync)` and `register(Ingest)`. */
    constructor ()
      ensures commands == Registered(Registered(map[], SyncCommand), IngestCommand)
      ensures commands.Keys == {"sync", "ingest"}
      ensures commands["sync"] == SyncCommand && commands["ingest"] == IngestCommand
    {
      commands := map[];
      new;
      Register(SyncCommand);
      Register(IngestCommand);
      LoadedKeys();
    }

    /** `register(command_cls)`. */
    method Register(c: CommandClass)
      modifies this
      ensures commands == Registered(old(commands), c)
    {
      var name := if c.name.Some? then c.name.value else Text.Lower(c.className);
      commands := commands[name := c];
    }
  }
}
