/** Bucket prefixes: how object names and project keys translate into each other. */
module KeyPrefix {
  import opened Wrappers

  datatype Prefix = Prefix(value: Option<string>)

  /** Appends the separator unless the text already ends in one. */
  function FormatPrefix(p: string): (r: string)
    ensures r != "" && r[|r| - 1] == '/'
    ensures p <= r && |r| <= |p| + 1
    ensures p != "" && p[|p| - 1] == '/' ==> r == p
  {
    if p != "" && p[|p| - 1] == '/' then p else p + "/"
  }

  function FromConfig(value: Option<string>): Prefix {
    if value.None? then Prefix(None) else Prefix(Some(FormatPrefix(value.value)))
  }

  /** The object name lies under the prefix (every name does when none is configured). */
  predicate Under(p: Prefix, name: string) {
    p.value.Some? ==> p.value.value <= name
  }

  function Strip(p: Prefix, name: string): string {
    if p.value.Some? && p.value.value <= name then name[|p.value.value|..] else name
  }

  function Prepend(p: Prefix, key: string): string {
    if p.value.None? then key else p.value.value + key
  }

  /** Every key survives the trip to an object name and back. */
  lemma StripPrepend(p: Prefix, key: string)
    ensures Under(p, Prepend(p, key))
    ensures Strip(p, Prepend(p, key)) == key
  {
    if p.value.Some? {
      assert (p.value.value + key)[|p.value.value|..] == key;
    }
  }

  /** A name survives the trip to a key and back exactly when it lies under the prefix. */
  lemma PrependStrip(p: Prefix, name: string)
    ensures Prepend(p, Strip(p, name)) == name <==> Under(p, name)
  {
    if p.value.Some? && !(p.value.value <= name) {
      assert |Prepend(p, Strip(p, name))| == |p.value.value| + |name|;
      assert p.value.value != "";
    }
  }

  /** Two names under one prefix never share a key. */
  lemma StripInjective(p: Prefix, a: string, b: string)
    requires Under(p, a) && Under(p, b)
    ensures Strip(p, a) == Strip(p, b) <==> a == b
  {
    PrependStrip(p, a);
    PrependStrip(p, b);
  }

  /** Without that condition two names can collide: stripping is not injective in general. */
  lemma StripCollision()
    ensures var p := FromConfig(Some("rules"));
            Strip(p, "rules/a") == Strip(p, "a") && !Under(p, "a")
  {
    var p := FromConfig(Some("rules"));
    assert p.value.value == "rules/";
    assert "rules/" <= "rules/a";
    assert "rules/a"[6..] == "a";
  }
}
