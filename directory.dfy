/** The two directory searches of the program, with the network part
    abstracted: what the domain controller answers is an input. Modelled here
    are the search bases built from the dotted domain name and the choice of
    the result the program keeps. */
module Directory {
  import opened Wrappers
  import opened Text

  /** The entries a paged search returned, or a failure anywhere on the way
      (ticket, connection, bind or search). */
  datatype Reply<T> = Unreachable | Entries(entries: seq<T>)

  /** The two attributes the program reads from a cross-reference entry. */
  datatype CrossRef = CrossRef(namingContext: string, netbiosName: string)

  datatype Error =
    | QueryFailed   // the connection, bind or search raised
    | NoDomainEntry // `conn.entries[0]` on an empty result

  const PartitionsContainer := "CN=Partitions,CN=Configuration,"

  /** `','.join(['DC=' + dp for dp in domain.split('.')])` */
  function SearchBase(domain: string): string
  {
    Join(Prefixed("DC=", Split(domain, '.')), ",")
  }

  /** `','.join(['dc=' + dp for dp in domain.split('.')])` */
  function DomainComponents(domain: string): string
  {
    Join(Prefixed("dc=", Split(domain, '.')), ",")
  }

  /** The base of the NetBIOS search: the partitions container of the
      configuration naming context. */
  function NetbiosSearchBase(domain: string): string
  {
    PartitionsContainer + DomainComponents(domain)
  }

  /** The search base is the domain with `DC=` in front and every dot turned
      into `,DC=`: one `DC=` component per label, in order. */
  lemma SearchBaseSpelled(domain: string)
    ensures SearchBase(domain) == "DC=" + Replace(domain, '.', ",DC=")
    ensures DomainComponents(domain) == "dc=" + Replace(domain, '.', ",dc=")
  {
    JoinPrefixedSplit(domain, '.', "DC=", ",");
    JoinPrefixedSplit(domain, '.', "dc=", ",");
    assert "," + "DC=" == ",DC=" && "," + "dc=" == ",dc=";
  }

  /** When no label holds a comma, splitting the search base at the commas
      gives back exactly the labels with `DC=` in front, in order. */
  lemma SearchBaseComponents(domain: string)
    requires ',' !in domain
    ensures Split(SearchBase(domain), ',') == Prefixed("DC=", Split(domain, '.'))
    ensures Split(DomainComponents(domain), ',') == Prefixed("dc=", Split(domain, '.'))
  {
    var labels := Split(domain, '.');
    forall k | 0 <= k < |labels| ensures ',' !in labels[k] {
      SplitJoin(domain, '.');
      LabelInJoin(labels, k, ".");
    }
    forall k | 0 <= k < |labels| ensures ',' !in Prefixed("DC=", labels)[k] && ',' !in Prefixed("dc=", labels)[k] {
      assert Prefixed("DC=", labels)[k] == "DC=" + labels[k];
      assert Prefixed("dc=", labels)[k] == "dc=" + labels[k];
    }
    JoinSplit(Prefixed("DC=", labels), ',');
    JoinSplit(Prefixed("dc=", labels), ',');
  }

  /** Every character of a part occurs in the join. */
  lemma {:induction false} LabelInJoin(parts: seq<string>, k: nat, sep: string)
    requires k < |parts|
    ensures forall c :: c in parts[k] ==> c in Join(parts, sep)
  {
    if |parts| > 1 {
      if k > 0 {
        LabelInJoin(parts[1..], k - 1, sep);
        assert parts[1..][k - 1] == parts[k];
      }
      assert Join(parts, sep) == parts[0] + sep + Join(parts[1..], sep);
    }
  }

  /** `get_sid`: the security identifier of the first entry of the search. */
  function GetSid(reply: Reply<string>): (r: Result<string, Error>)
    ensures r.Ok? <==> reply.Entries? && |reply.entries| > 0
    ensures r.Ok? ==> r.value == reply.entries[0]
    ensures reply.Unreachable? ==> r == Err(QueryFailed)
  {
    match reply
    case Unreachable => Err(QueryFailed)
    case Entries(es) => if |es| == 0 then Err(NoDomainEntry) else Ok(es[0])
  }

  /** `i` is the first entry whose lower-cased naming context equals `target`. */
  predicate FirstMatchAt(results: seq<CrossRef>, target: string, i: int)
  {
    && 0 <= i < |results|
    && Lower(results[i].namingContext) == target
    && forall j :: 0 <= j < i ==> Lower(results[j].namingContext) != target
  }

  /** The loop of `get_netbios`: the NetBIOS name of the first entry whose
      lower-cased naming context equals `target`, or nothing. */
  function FirstNetbios(results: seq<CrossRef>, target: string): (r: Option<string>)
    ensures r.None? <==> forall i :: 0 <= i < |results| ==> Lower(results[i].namingContext) != target
    ensures r.Some? ==> exists i :: FirstMatchAt(results, target, i) && r.value == results[i].netbiosName
  {
    if results == [] then None
    else if Lower(results[0].namingContext) == target then Some(results[0].netbiosName)
    else
      var r := FirstNetbios(results[1..], target);
      assert r.Some? ==> exists i :: FirstMatchAt(results, target, i) && r.value == results[i].netbiosName by {
        if r.Some? {
          var i :| FirstMatchAt(results[1..], target, i) && r.value == results[1..][i].netbiosName;
          assert FirstMatchAt(results, target, i + 1);
        }
      }
      assert r.None? ==> forall i :: 0 <= i < |results| ==> Lower(results[i].namingContext) != target by {
        if r.None? {
          forall i | 0 < i < |results| ensures Lower(results[i].namingContext) != target {
            assert results[i] == results[1..][i - 1];
          }
        }
      }
      r
  }

  /** `get_netbios` as written: the lower-cased naming context is compared
      with the components built from the domain as given, which keep the
      case of the domain's labels. */
  function FindNetbiosAsWritten(results: seq<CrossRef>, domain: string): Option<string>
  {
    FirstNetbios(results, DomainComponents(domain))
  }

  /** `get_netbios` with the comparison made case-insensitive on both sides. */
  function FindNetbios(results: seq<CrossRef>, domain: string): Option<string>
  {
    FirstNetbios(results, Lower(DomainComponents(domain)))
  }

  /** `get_netbios` as the Samba configurator calls it: a failed search
      raises, a search without a matching entry yields nothing, and otherwise
      the comparison is the one the program makes. */
  function LookupNetbios(reply: Reply<CrossRef>, domain: string): (r: Result<Option<string>, Error>)
    ensures r.Err? <==> reply.Unreachable?
    ensures r.Ok? ==> r.value == FindNetbiosAsWritten(reply.entries, domain)
  {
    match reply
    case Unreachable => Err(QueryFailed)
    case Entries(es) => Ok(FindNetbiosAsWritten(es, domain))
  }

  /** Lower-casing the components is building them from the lower-cased
      domain. */
  lemma LowerDomainComponents(domain: string)
    ensures Lower(DomainComponents(domain)) == DomainComponents(Lower(domain))
    ensures Lower(SearchBase(domain)) == DomainComponents(Lower(domain))
  {
    SearchBaseSpelled(domain);
    SearchBaseSpelled(Lower(domain));
    LowerReplace(domain, '.', ",dc=");
    LowerReplace(domain, '.', ",DC=");
    LowerAppend("dc=", Replace(domain, '.', ",dc="));
    LowerAppend("DC=", Replace(domain, '.', ",DC="));
    assert Lower("dc=") == "dc=" && Lower(",dc=") == ",dc=";
    assert Lower("DC=") == "dc=" && Lower(",DC=") == ",dc=";
  }

  /** As written, a domain spelled with any upper-case letter never matches:
      the components keep that letter and a lower-cased naming context has
      none. */
  lemma AsWrittenMissesUpperCaseDomain(results: seq<CrossRef>, domain: string)
    requires HasUpper(domain)
    ensures FindNetbiosAsWritten(results, domain) == None
  {
    SearchBaseSpelled(domain);
    var tail := Replace(domain, '.', ",dc=");
    ReplaceKeepsUpper(domain, '.', ",dc=");
    var j :| 0 <= j < |tail| && IsUpperChar(tail[j]);
    assert ("dc=" + tail)[3 + j] == tail[j];
    assert HasUpper(DomainComponents(domain));
    forall i | 0 <= i < |results| ensures Lower(results[i].namingContext) != DomainComponents(domain) {
      LowerHasNoUpper(results[i].namingContext);
    }
  }

  /** The concrete case: the domain controller of `EXAMPLE.COM` answers with
      its own cross-reference, and the lookup as written finds nothing while
      the case-insensitive lookup finds the NetBIOS name. */
  lemma AsWrittenCounterexample()
    ensures FindNetbiosAsWritten([CrossRef(SearchBase("EXAMPLE.COM"), "EXAMPLE")], "EXAMPLE.COM") == None
    ensures FindNetbios([CrossRef(SearchBase("EXAMPLE.COM"), "EXAMPLE")], "EXAMPLE.COM") == Some("EXAMPLE")
  {
    assert IsUpperChar("EXAMPLE.COM"[0]);
    AsWrittenMissesUpperCaseDomain([CrossRef(SearchBase("EXAMPLE.COM"), "EXAMPLE")], "EXAMPLE.COM");
    FindsOwnCrossReference([CrossRef(SearchBase("EXAMPLE.COM"), "EXAMPLE")], "EXAMPLE.COM", 0);
  }

  /** Whatever the case of the domain as typed, the corrected lookup finds a
      name as soon as one entry carries the domain's distinguished name in any
      case: the name of the first entry that matches, which comes no later
      than that one. */
  lemma FindsOwnCrossReference(results: seq<CrossRef>, domain: string, i: int)
    requires 0 <= i < |results| && Lower(results[i].namingContext) == Lower(SearchBase(domain))
    ensures FindNetbios(results, domain).Some?
    ensures exists k :: && 0 <= k <= i
                        && Lower(results[k].namingContext) == Lower(SearchBase(domain))
                        && FindNetbios(results, domain) == Some(results[k].netbiosName)
  {
    LowerDomainComponents(domain);
    var target := Lower(DomainComponents(domain));
    assert Lower(results[i].namingContext) == target;
    var r := FirstNetbios(results, target);
    assert r == FindNetbios(results, domain);
    assert r.Some?;
    var k :| FirstMatchAt(results, target, k) && FindNetbios(results, domain).value == results[k].netbiosName;
    assert k <= i;
  }

  /** The lookup depends on the domain only up to case. */
  lemma FindNetbiosIgnoresCase(results: seq<CrossRef>, d1: string, d2: string)
    requires Lower(d1) == Lower(d2)
    ensures FindNetbios(results, d1) == FindNetbios(results, d2)
  {
    LowerDomainComponents(d1);
    LowerDomainComponents(d2);
  }

  /** For a domain typed in lower case the lookup as written already behaves
      as intended. */
  lemma AsWrittenAgreesOnLowerCase(results: seq<CrossRef>, domain: string)
    requires Lower(domain) == domain
    ensures FindNetbiosAsWritten(results, domain) == FindNetbios(results, domain)
  {
    LowerDomainComponents(domain);
  }
}
