/** The category prefix a driver removes on load and puts back on save. */
module CategoryUtils {
  import opened Wrappers
  import opened StringUtils
  import opened Errors

  /**
   * stripCategoryPrefix: the empty prefix keeps the category; otherwise the
   * category must start with the prefix and loses it, or the source data is
   * rejected.
   */
  function StripCategoryPrefix(prefix: string, category: string): (r: Result<string, Error>)
    ensures prefix == "" ==> r == Ok(category)
    ensures r.Ok? <==> StartsWith(category, prefix)
    ensures r.Ok? ==> prefix + r.value == category && r.value == category[|prefix|..]
    ensures r.Err? ==> r.error == SourceData
  {
    if prefix == "" then Ok(category)
    else if StartsWith(category, prefix) then Ok(category[|prefix|..])
    else Err(SourceData)
  }

  /** Stripping undoes the prefixing done on save. */
  lemma StripAfterPrefixing(prefix: string, category: string)
    ensures StripCategoryPrefix(prefix, prefix + category) == Ok(category)
  {
    assert (prefix + category)[..|prefix|] == prefix;
    assert (prefix + category)[|prefix|..] == category;
  }

  /** Prefixing undoes a successful strip, so two categories never strip to the same name. */
  lemma StripInjective(prefix: string, a: string, b: string)
    requires StripCategoryPrefix(prefix, a).Ok? && StripCategoryPrefix(prefix, b).Ok?
    requires StripCategoryPrefix(prefix, a) == StripCategoryPrefix(prefix, b)
    ensures a == b
  {
  }

  /** The keys of m with the prefix put back, as saving does. */
  function Prefixed<V>(prefix: string, m: map<string, V>): (r: map<string, V>)
    ensures forall c | c in m :: prefix + c in r && r[prefix + c] == m[c]
    ensures forall k | k in r :: StartsWith(k, prefix) && k[|prefix|..] in m && k == prefix + k[|prefix|..]
  {
    assert forall a, b | prefix + a == prefix + b :: a == b by {
      forall a, b | prefix + a == prefix + b ensures a == b {
        CancelPrefix(prefix, a, b);
      }
    }
    assert forall c :: (prefix + c)[|prefix|..] == c;
    map c | c in m :: prefix + c := m[c]
  }
}
