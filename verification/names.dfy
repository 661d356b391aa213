/**
 * Snapshot name normalisation: `ensure_conf_extension` in src/cli.rs, the rule the
 * command-line surface applies to every name, and that the save prompt of the
 * interactive loop applies inline to the text the user typed.
 */
module Names {

  /** The suffix every snapshot name is normalised to end with. */
  const ConfSuffix: string := ".conf"

  /** `s.ends_with(suffix)` on Rust strings. */
  predicate EndsWith(s: string, suffix: string) {
    |suffix| <= |s| && s[|s| - |suffix|..] == suffix
  }

  /** Appends `.conf` unless the name already ends with it. No trimming and no
      emptiness check: the empty name becomes `.conf`. */
  function EnsureConfExtension(name: string): (r: string)
    ensures EndsWith(r, ConfSuffix)
    ensures name <= r
    ensures r == name <==> EndsWith(name, ConfSuffix)
    ensures r != name ==> |r| == |name| + |ConfSuffix|
  {
    if EndsWith(name, ConfSuffix) then name else name + ConfSuffix
  }

  /** Normalising an already normalised name changes nothing. */
  lemma EnsureConfExtensionIdempotent(name: string)
    ensures EnsureConfExtension(EnsureConfExtension(name)) == EnsureConfExtension(name)
  {
  }

  /** Normalisation only ever appends: the name can be recovered by dropping
      the suffix the function added. */
  lemma EnsureConfExtensionRecoverable(name: string)
    ensures var r := EnsureConfExtension(name);
      EndsWith(name, ConfSuffix) || r[..|r| - |ConfSuffix|] == name
  {
  }

  /** The empty name is not rejected: it becomes the bare suffix. */
  lemma EmptyNameBecomesSuffix()
    ensures EnsureConfExtension("") == ".conf"
  {
  }
}
