/** The edit `configure_sssd` makes to the SSSD configuration when joining:
    find the section of the domain, then set the LDAP id-mapping keys in it. */
module Sssd {
  import opened Wrappers
  import opened Text
  import opened Config

  /** The section the program looks for first: `'domain/' + domain`. */
  function DomainKey(domain: string): string
  {
    "domain/" + domain
  }

  const IdMappingKey := "ldap_id_mapping"
  const RangeMinKey := "ldap_idmap_range_min"
  const RangeSizeKey := "ldap_idmap_range_size"
  const DomainSidKey := "ldap_idmap_default_domain_sid"

  /** The bounds of the id range handed to the id-mapping algorithm. */
  const RangeMin := 1000000
  const RangeSize := 2000000

  /** The three keys that are set together or removed together. */
  const RangeKeys: set<string> := {RangeMinKey, RangeSizeKey, DomainSidKey}

  /** Every key the edit may touch. */
  const IdMapKeys: set<string> := RangeKeys + {IdMappingKey}

  datatype Error = DomainSectionNotFound

  /** `i` is the first position whose name equals `key` when both are
      lower-cased. */
  predicate FirstCaselessAt(names: seq<string>, key: string, i: int)
  {
    && 0 <= i < |names|
    && Lower(names[i]) == Lower(key)
    && forall j :: 0 <= j < i ==> Lower(names[j]) != Lower(key)
  }

  /** `[k for k in sssdcfg if k.lower() == domain_key.lower()]`: the names
      that match `key` case-insensitively, in document order. */
  function CaselessMatches(names: seq<string>, key: string): (m: seq<string>)
    ensures forall x :: x in m <==> x in names && Lower(x) == Lower(key)
    ensures |m| > 0 ==> exists i :: FirstCaselessAt(names, key, i) && m[0] == names[i]
  {
    if names == [] then []
    else
      var rest := CaselessMatches(names[1..], key);
      assert forall x :: x in names <==> x == names[0] || x in names[1..];
      if Lower(names[0]) == Lower(key) then
        assert FirstCaselessAt(names, key, 0);
        [names[0]] + rest
      else
        assert |rest| > 0 ==> exists i :: FirstCaselessAt(names, key, i) && rest[0] == names[i] by {
          if |rest| > 0 {
            var i :| FirstCaselessAt(names[1..], key, i) && rest[0] == names[1..][i];
            assert FirstCaselessAt(names, key, i + 1);
          }
        }
        rest
  }

  /** The section name `configure_sssd` edits: `'domain/' + domain` when the
      document has it, otherwise the first name in document order that matches
      it case-insensitively; an error when none does. */
  function ResolveDomainKey(doc: Document, domain: string): (r: Result<string, Error>)
    ensures DomainKey(domain) in Names(doc) ==> r == Ok(DomainKey(domain))
    ensures r.Err? <==> forall i :: 0 <= i < |doc| ==> Lower(doc[i].name) != Lower(DomainKey(domain))
    ensures r.Ok? ==> r.value in Names(doc) && Lower(r.value) == Lower(DomainKey(domain))
    ensures r.Ok? && DomainKey(domain) !in Names(doc) ==>
              exists i :: FirstCaselessAt(Names(doc), DomainKey(domain), i) && r.value == doc[i].name
  {
    var names, key := Names(doc), DomainKey(domain);
    if key in names then Ok(key)
    else
      var matches := CaselessMatches(names, key);
      if |matches| == 0 then
        assert forall i :: 0 <= i < |doc| ==> Lower(doc[i].name) != Lower(key) by {
          forall i | 0 <= i < |doc| ensures Lower(doc[i].name) != Lower(key) {
            assert names[i] in names;
          }
        }
        Err(DomainSectionNotFound)
      else
        Ok(matches[0])
  }

  /** The id-mapping keys of the resolved section after the edit of lines
      223-231: the flag, then either the range and the domain SID, or none of
      those three. */
  function IdMapped(es: seq<Entry>, useIdMap: bool, sid: string): (r: seq<Entry>)
    ensures Get(r, IdMappingKey) == Some(Flag(useIdMap))
    ensures useIdMap ==>
              && Get(r, RangeMinKey) == Some(Number(RangeMin))
              && Get(r, RangeSizeKey) == Some(Number(RangeSize))
              && Get(r, DomainSidKey) == Some(Text(sid))
    ensures !useIdMap ==> forall k :: k in RangeKeys ==> Get(r, k) == None
    ensures forall k :: k !in IdMapKeys ==> Get(r, k) == Get(es, k)
  {
    var flagged := Set(es, IdMappingKey, Flag(useIdMap));
    if useIdMap then
      Set(Set(Set(flagged, RangeMinKey, Number(RangeMin)), RangeSizeKey, Number(RangeSize)), DomainSidKey, Text(sid))
    else
      Pop(Pop(Pop(flagged, RangeMinKey), RangeSizeKey), DomainSidKey)
  }

  /** The edit keeps every other entry of the section, in its order. */
  lemma IdMappedKeepsOthers(es: seq<Entry>, useIdMap: bool, sid: string)
    ensures Without(IdMapped(es, useIdMap, sid), IdMapKeys) == Without(es, IdMapKeys)
  {
    var e1 := Set(es, IdMappingKey, Flag(useIdMap));
    WithoutWiden(e1, es, IdMappingKey, IdMapKeys);
    if useIdMap {
      var e2 := Set(e1, RangeMinKey, Number(RangeMin));
      var e3 := Set(e2, RangeSizeKey, Number(RangeSize));
      var e4 := Set(e3, DomainSidKey, Text(sid));
      WithoutWiden(e2, e1, RangeMinKey, IdMapKeys);
      WithoutWiden(e3, e2, RangeSizeKey, IdMapKeys);
      WithoutWiden(e4, e3, DomainSidKey, IdMapKeys);
    } else {
      var e2 := Pop(e1, RangeMinKey);
      var e3 := Pop(e2, RangeSizeKey);
      var e4 := Pop(e3, DomainSidKey);
      WithoutWiden(e2, e1, RangeMinKey, IdMapKeys);
      WithoutWiden(e3, e2, RangeSizeKey, IdMapKeys);
      WithoutWiden(e4, e3, DomainSidKey, IdMapKeys);
    }
  }

  /** The edit never repeats a key in a section that had none repeated. */
  lemma IdMappedKeepsDistinct(es: seq<Entry>, useIdMap: bool, sid: string)
    requires DistinctKeys(es)
    ensures DistinctKeys(IdMapped(es, useIdMap, sid))
  {
    var e1 := Set(es, IdMappingKey, Flag(useIdMap));
    SetKeepsDistinct(es, IdMappingKey, Flag(useIdMap));
    if useIdMap {
      var e2 := Set(e1, RangeMinKey, Number(RangeMin));
      var e3 := Set(e2, RangeSizeKey, Number(RangeSize));
      SetKeepsDistinct(e1, RangeMinKey, Number(RangeMin));
      SetKeepsDistinct(e2, RangeSizeKey, Number(RangeSize));
      SetKeepsDistinct(e3, DomainSidKey, Text(sid));
    } else {
      var e2 := Pop(e1, RangeMinKey);
      var e3 := Pop(e2, RangeSizeKey);
      PopKeepsDistinct(e1, RangeMinKey);
      PopKeepsDistinct(e2, RangeSizeKey);
      PopKeepsDistinct(e3, DomainSidKey);
    }
  }

  /** Applying the edit a second time with the same inputs changes nothing
      that can be looked up. */
  lemma IdMappedIdempotent(es: seq<Entry>, useIdMap: bool, sid: string, k: string)
    ensures Get(IdMapped(IdMapped(es, useIdMap, sid), useIdMap, sid), k) == Get(IdMapped(es, useIdMap, sid), k)
  {
  }

  /** The whole join-mode edit of the document: resolve the section, then
      apply the id-mapping edit to it in place. */
  function Configured(doc: Document, domain: string, useIdMap: bool, sid: string): (r: Result<Document, Error>)
    ensures r.Err? <==> ResolveDomainKey(doc, domain).Err?
  {
    match ResolveDomainKey(doc, domain)
    case Err(e) => Err(e)
    case Ok(k) => Ok(PutSection(doc, k, IdMapped(GetSection(doc, k).value, useIdMap, sid)))
  }

  /** Only the resolved section changes: the document keeps its section names
      and order, and every section under another name is as it was. */
  lemma ConfiguredChangesOnlyDomainSection(doc: Document, domain: string, useIdMap: bool, sid: string)
    requires Configured(doc, domain, useIdMap, sid).Ok?
    ensures var k, r := ResolveDomainKey(doc, domain).value, Configured(doc, domain, useIdMap, sid).value;
      && Names(r) == Names(doc)
      && GetSection(doc, k).Some?
      && GetSection(r, k) == Some(IdMapped(GetSection(doc, k).value, useIdMap, sid))
      && forall n :: n != k ==> GetSection(r, n) == GetSection(doc, n)
  {
  }

  /** A section spelled with another case than the requested domain is found
      and edited. */
  lemma ResolvesOtherCase()
    ensures ResolveDomainKey([Section("sssd", []), Section("domain/EXAMPLE.COM", [])], "example.com")
            == Ok("domain/EXAMPLE.COM")
  {
    var doc := [Section("sssd", []), Section("domain/EXAMPLE.COM", [])];
    assert Names(doc) == ["sssd", "domain/EXAMPLE.COM"];
    assert DomainKey("example.com")[7] != "domain/EXAMPLE.COM"[7];
    assert DomainKey("example.com") !in Names(doc);
    assert Lower("domain/EXAMPLE.COM") == Lower(DomainKey("example.com"));
    var r := ResolveDomainKey(doc, "example.com");
    assert r.Ok?;
    var i :| FirstCaselessAt(Names(doc), DomainKey("example.com"), i) && r.value == doc[i].name;
    assert Lower("sssd") != Lower(DomainKey("example.com"));
  }
}
