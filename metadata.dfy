/** Gorma-namespaced metadata: goa attaches a string-to-string map to every
    attribute and type; gorma reads its own keys, which are the namespace
    followed by a hashtag such as "#gormtag", compared without regard to
    ASCII case. */
module Metadata {
  import opened GoStrings

  /** META_NAMESPACE */
  const MetaNamespace: string := "github.com/bketelsen/gorma"

  type MetadataDef = map<string, string>

  /** `k` names the gorma hashtag `tag`, ignoring case. */
  predicate KeyMatches(k: string, tag: string) {
    Lower(k) == Lower(MetaNamespace + tag)
  }

  /** Some key of `md` names `tag`. */
  predicate HasMeta(md: MetadataDef, tag: string) {
    exists k :: k in md && KeyMatches(k, tag)
  }

  /** `v` is the value of some key of `md` that names `tag`. */
  predicate IsMetaValue(md: MetadataDef, tag: string, v: string) {
    exists k :: k in md && KeyMatches(k, tag) && md[k] == v
  }

  /** All the keys naming `tag` (there may be several spellings) agree. */
  predicate Unambiguous(md: MetadataDef, tag: string) {
    forall k1, k2 :: k1 in md && k2 in md && KeyMatches(k1, tag) && KeyMatches(k2, tag) ==> md[k1] == md[k2]
  }

  /** metaLookup: ranges over the map, in Go's unspecified order, and returns
      the value of the first key that equals the namespaced tag once both are
      lower-cased; ("", false) when there is none. */
  method MetaLookup(md: MetadataDef, hashtag: string) returns (result: string, ok: bool)
    ensures ok <==> HasMeta(md, hashtag)
    ensures ok ==> IsMetaValue(md, hashtag, result)
    ensures !ok ==> result == ""
  {
    var needle := Lower(MetaNamespace + hashtag);
    var remaining := md.Keys;
    while remaining != {}
      invariant remaining <= md.Keys
      invariant forall k :: k in md && k !in remaining ==> !KeyMatches(k, hashtag)
      decreases remaining
    {
      var k :| k in remaining;
      if Lower(k) == needle {
        return md[k], true;
      }
      remaining := remaining - {k};
    }
    return "", false;
  }

  /** metaLookupTmpl: the value found, or "" when the tag is absent. */
  method MetaLookupTmpl(md: MetadataDef, hashtag: string) returns (result: string)
    ensures !HasMeta(md, hashtag) ==> result == ""
    ensures HasMeta(md, hashtag) ==> IsMetaValue(md, hashtag, result)
  {
    var ok;
    result, ok := MetaLookup(md, hashtag);
  }

  /** When the spellings of a tag agree, the lookup has one possible answer:
      the value stored under the exact namespaced key, if that key is present. */
  lemma LookupDetermined(md: MetadataDef, tag: string, v: string)
    requires Unambiguous(md, tag) && MetaNamespace + tag in md
    ensures IsMetaValue(md, tag, v) <==> v == md[MetaNamespace + tag]
  {
    var exact := MetaNamespace + tag;
    assert KeyMatches(exact, tag);
  }

  /** Adding a value under the exact namespaced key of an absent tag makes the
      tag present, and that value the only one a lookup can find. */
  lemma AddedTagIsFound(md: MetadataDef, tag: string, v0: string, v: string)
    requires !HasMeta(md, tag)
    ensures HasMeta(md[MetaNamespace + tag := v0], tag)
    ensures IsMetaValue(md[MetaNamespace + tag := v0], tag, v) <==> v == v0
  {
    var exact := MetaNamespace + tag;
    var md' := md[exact := v0];
    assert KeyMatches(exact, tag) && exact in md';
    if IsMetaValue(md', tag, v) {
      var k :| k in md' && KeyMatches(k, tag) && md'[k] == v;
      assert k == exact;
    }
  }

  /** Keys that differ only in ASCII case name the same tag. */
  lemma CaseInsensitive(k: string, tag: string)
    ensures KeyMatches(Lower(k), tag) <==> KeyMatches(k, tag)
  {
    assert Lower(Lower(k)) == Lower(k);
  }
}
