/** The version log beside the configuration file: config/versions.py lines 22-102. */
module VersionStore {
  import opened Outcome
  import opened ConfigSchema

  const RETENTION := 20

  datatype Recorded = Recorded(config: Value, changed: seq<string>)

  datatype LogEntry = LogEntry(version: nat, changed: seq<string>, config: Value)

  /** The log after recording `history`, oldest first: the last 20, newest first, numbered from 1. */
  ghost function Log(history: seq<Recorded>): seq<LogEntry> {
    seq(if |history| < RETENTION then |history| else RETENTION,
        i requires 0 <= i < |history| =>
          var r := history[|history| - 1 - i];
          LogEntry(|history| - i, r.changed, r.config))
  }

  /** What was recorded as `version`, as long as it is retained. */
  ghost function SnapshotOf(history: seq<Recorded>, version: int): Option<Value> {
    if 1 <= version <= |history| && |history| - RETENTION < version && history[version - 1].config.Dict?
    then Some(history[version - 1].config)
    else None
  }

  /** Recording puts the new entry in front of the retained window and drops what falls out of it. */
  lemma LogGrows(history: seq<Recorded>, r: Recorded)
    ensures var longer := [LogEntry(|history| + 1, r.changed, r.config)] + Log(history);
            Log(history + [r]) == if |longer| <= RETENTION then longer else longer[..RETENTION]
  {
    var longer := [LogEntry(|history| + 1, r.changed, r.config)] + Log(history);
    var grown := Log(history + [r]);
    forall i | 0 <= i < |grown|
      ensures grown[i] == longer[i]
    {
      if i > 0 { assert (history + [r])[|history| - i] == history[|history| - i]; }
    }
  }

  /** Versions are consecutive, newest first, at most 20, and the newest is the number recorded. */
  lemma LogNumbering(history: seq<Recorded>)
    ensures var log := Log(history);
            && |log| <= RETENTION && (|log| < RETENTION ==> |log| == |history|)
            && (history != [] ==> log != [] && log[0].version == |history|)
            && (forall i :: 0 <= i < |log| - 1 ==> log[i].version == log[i + 1].version + 1)
  {
  }

  /** A version leads to the snapshot logged under its number, and to nothing if there is none. */
  lemma SnapshotIff(history: seq<Recorded>, version: int, config: Value)
    ensures SnapshotOf(history, version) == Some(config) <==>
            config.Dict? && exists i :: 0 <= i < |Log(history)| && Log(history)[i].version == version && Log(history)[i].config == config
  {
    var log := Log(history);
    if SnapshotOf(history, version) == Some(config) {
      assert log[|history| - version].version == version && log[|history| - version].config == config;
    }
  }

  class ConfigVersionStore {
    var entries: seq<LogEntry>
    ghost var history: seq<Recorded>

    ghost predicate Valid()
      reads this
    {
      entries == Log(history)
    }

    constructor ()
      ensures Valid() && history == []
    {
      entries, history := [], [];
    }

    method CurrentVersion() returns (version: nat)
      requires Valid()
      ensures version == |history|
    {
      version := if entries != [] then entries[0].version else 0;
    }

    method Snapshot(version: int) returns (config: Option<Value>)
      requires Valid()
      ensures config == SnapshotOf(history, version)
    {
      assert 1 <= version <= |history| && |history| - RETENTION < version ==>
        entries[|history| - version].version == version;
      for i := 0 to |entries|
        invariant forall j :: 0 <= j < i ==> entries[j].version != version
      {
        if entries[i].version == version {
          return if entries[i].config.Dict? then Some(entries[i].config) else None;
        }
      }
      return None;
    }

    method Record(config: Value, changed: seq<string>) returns (version: nat)
      requires Valid()
      modifies this
      ensures Valid()
      ensures history == old(history) + [Recorded(config, changed)]
      ensures version == |history|
    {
      version := (if entries != [] then entries[0].version else 0) + 1;
      LogGrows(history, Recorded(config, changed));
      entries := [LogEntry(version, changed, config)] + entries;
      if |entries| > RETENTION { entries := entries[..RETENTION]; }
      history := history + [Recorded(config, changed)];
    }
  }
}
