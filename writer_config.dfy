/**
 * How many versions of a chapter are generated, and the configuration
 * endpoints that set it (backend/app/api/routers/writer_config.py, and the
 * copy of the read rule at backend/app/api/routers/writer.py:431-453).
 *
 * The system configuration table is a map from key to a nullable text
 * value. Python's `int()` is the oracle `parse` (`None` for a string it
 * rejects with `ValueError`); a NULL value is the `TypeError` case.
 */
module WriterConfig {
  import opened Wrappers
  import opened Text

  /** The configuration key (lines 36, 71, 80, 99). */
  const VersionsKey: string := "writer.chapter_versions"

  /** The version count when nothing else is configured (line 60). */
  const DefaultVersions: int := 3

  /** The bounds of `WriterConfigUpdate.chapter_versions` (line 26). */
  const MinVersions: int := 1
  const MaxVersions: int := 10

  /** The status of a request body that fails validation. */
  const ValidationStatus: int := 422

  /** The persisted value, when it parses to a positive count. */
  function PersistedCount(record: Option<Option<string>>, parse: string -> Option<int>): Option<int> {
    if record.Some? && record.value.Some? && parse(record.value.value).Some? && parse(record.value.value).value > 0
    then Some(parse(record.value.value).value) else None
  }

  /** The environment value, when it is set, non-empty and parses to a positive count. */
  function EnvCount(env: Option<string>, parse: string -> Option<int>): Option<int> {
    if env.Some? && env.value != "" && parse(env.value).Some? && parse(env.value).value > 0
    then Some(parse(env.value).value) else None
  }

  /**
   * `_resolve_version_count` (writer.py:431-453): the persisted record
   * (`None` when absent, `Some(None)` when its value is NULL), else the
   * environment variable, else 3. The result is always a positive count.
   */
  function ResolveVersionCount(record: Option<Option<string>>, env: Option<string>, parse: string -> Option<int>): (n: int)
    ensures n >= 1
    ensures PersistedCount(record, parse).Some? ==> n == PersistedCount(record, parse).value
    ensures PersistedCount(record, parse).None? && EnvCount(env, parse).Some? ==> n == EnvCount(env, parse).value
    ensures PersistedCount(record, parse).None? && EnvCount(env, parse).None? ==> n == DefaultVersions
  {
    if record.Some? && record.value.Some? && parse(record.value.value).Some? && parse(record.value.value).value > 0 then
      parse(record.value.value).value
    else if env.Some? && env.value != "" && parse(env.value).Some? && parse(env.value).value > 0 then
      parse(env.value).value
    else
      3
  }

  function Lookup(entries: map<string, Option<string>>, key: string): Option<Option<string>> {
    if key in entries then Some(entries[key]) else None
  }

  /**
   * A count written by the update endpoint is read back, provided `int()`
   * reads the stored numeral as the number it denotes, as Python's does.
   */
  lemma UpdateThenResolve(entries: map<string, Option<string>>, n: int, env: Option<string>, parse: string -> Option<int>)
    requires MinVersions <= n <= MaxVersions
    requires parse(IntToString(n)) == Some(DecimalValue(IntToString(n)))
    ensures ResolveVersionCount(Lookup(entries[VersionsKey := Some(IntToString(n))], VersionsKey), env, parse) == n
  {
  }

  /** Once the record is deleted, the count comes from the environment or is the default. */
  lemma DeleteThenResolve(entries: map<string, Option<string>>, env: Option<string>, parse: string -> Option<int>)
    ensures var n := ResolveVersionCount(Lookup(entries - {VersionsKey}, VersionsKey), env, parse);
      n == if EnvCount(env, parse).Some? then EnvCount(env, parse).value else DefaultVersions
  {
  }

  /** A persisted value that is not a positive number is ignored, whatever it is. */
  lemma UnusableRecordIgnored(record: Option<Option<string>>, env: Option<string>, parse: string -> Option<int>)
    requires PersistedCount(record, parse).None?
    ensures ResolveVersionCount(record, env, parse) == ResolveVersionCount(None, env, parse)
  {
  }

  /** The system configuration table. */
  class ConfigStore {
    var entries: map<string, Option<string>>

    constructor (entries: map<string, Option<string>>)
      ensures this.entries == entries
    {
      this.entries := entries;
    }

    /**
     * `read_writer_config` (lines 35-60): the same rule as the generator
     * uses, so both always agree on the count.
     */
    method Read(env: Option<string>, parse: string -> Option<int>) returns (chapterVersions: int)
      ensures chapterVersions == ResolveVersionCount(Lookup(entries, VersionsKey), env, parse)
      ensures chapterVersions >= 1
    {
      if VersionsKey in entries {
        var value := entries[VersionsKey];
        if value.Some? {
          var parsed := parse(value.value);
          if parsed.Some? && parsed.value > 0 {
            return parsed.value;
          }
        }
      }
      if env.Some? && env.value != "" {
        var parsed := parse(env.value);
        if parsed.Some? && parsed.value > 0 {
          return parsed.value;
        }
      }
      return DefaultVersions;
    }

    /**
     * `update_writer_config` (lines 26, 70-89): a count outside 1..10 is
     * rejected before the handler runs and nothing changes; otherwise the
     * record is overwritten with, or created holding, the count's decimal
     * text, no other entry changes, and the count is returned.
     */
    method Update(chapterVersions: int) returns (r: Result<int, int>)
      modifies this
      ensures MinVersions <= chapterVersions <= MaxVersions ==>
        r == Ok(chapterVersions) && entries == old(entries)[VersionsKey := Some(IntToString(chapterVersions))]
      ensures !(MinVersions <= chapterVersions <= MaxVersions) ==>
        r == Err(ValidationStatus) && entries == old(entries)
    {
      if !(MinVersions <= chapterVersions <= MaxVersions) {
        return Err(ValidationStatus);
      }
      // An existing record gets the new value; a missing one is created with it.
      entries := entries[VersionsKey := Some(IntToString(chapterVersions))];
      return Ok(chapterVersions);
    }

    /** `delete_writer_config` (lines 98-106): removes the record if there is one, and does nothing otherwise. */
    method Delete()
      modifies this
      ensures entries == old(entries) - {VersionsKey}
      ensures VersionsKey !in old(entries) ==> entries == old(entries)
    {
      if VersionsKey in entries {
        entries := entries - {VersionsKey};
      }
    }
  }
}
