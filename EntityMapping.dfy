/** `findEntityDefinitionBySlug`: the definition a URL slug names. */
module EntityMapping {
  import opened Base
  import opened Schema

  /** The first definition in list order whose slug is `slug`, or none. */
  function FindEntityDefinitionBySlug(defs: seq<EntityDefinition>, slug: string): (r: Option<EntityDefinition>)
    ensures r.Some? ==> r.value.slug == slug && r.value in defs
    ensures r.None? <==> forall i :: 0 <= i < |defs| ==> defs[i].slug != slug
  {
    if defs == [] then None
    else if defs[0].slug == slug then Some(defs[0])
    else FindEntityDefinitionBySlug(defs[1..], slug)
  }

  /** The match returned is the first one: a definition with the slug that
      no earlier definition shares is the result. */
  lemma {:induction false} FindReturnsFirst(defs: seq<EntityDefinition>, slug: string, i: nat)
    requires i < |defs| && defs[i].slug == slug
    requires forall j :: 0 <= j < i ==> defs[j].slug != slug
    ensures FindEntityDefinitionBySlug(defs, slug) == Some(defs[i])
  {
    if i > 0 {
      FindReturnsFirst(defs[1..], slug, i - 1);
    }
  }

  /** Searching a list in two parts: the first part wins. */
  lemma {:induction false} FindInParts(a: seq<EntityDefinition>, b: seq<EntityDefinition>, slug: string)
    ensures FindEntityDefinitionBySlug(a + b, slug) ==
            if FindEntityDefinitionBySlug(a, slug).Some? then FindEntityDefinitionBySlug(a, slug)
            else FindEntityDefinitionBySlug(b, slug)
  {
    if a == [] {
      assert a + b == b;
    } else {
      assert (a + b)[0] == a[0];
      assert (a + b)[1..] == a[1..] + b;
      FindInParts(a[1..], b, slug);
    }
  }
}
