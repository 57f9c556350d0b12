/** The two Samba configuration documents: the standalone default written by
    `create_samba_default_config` and the domain-member document of the join
    branch of `configure_samba`. Each is built, as in the program, by
    assigning fixed keys one after the other into the `global` section of a
    fresh document. */
module Samba {
  import opened Wrappers
  import opened Text
  import opened Config

  const GlobalSection := "global"

  /** The workgroup fixed by the default document. */
  const DefaultWorkgroup := "StrongLink"

  /** The assignments of `create_samba_default_config`, in program order. */
  function DefaultAssignments(): seq<Entry>
  {
    [ Entry("workgroup", Text(DefaultWorkgroup)),
      Entry("server string", Text("StrongLink Samba Server")),
      Entry("log file", Text("/var/log/samba/log.%m")),
      Entry("log level", Text("3")),
      Entry("max log size", Text("50")),
      Entry("security", Text("user")),
      Entry("client signing", Text("auto")),
      Entry("server signing", Text("auto")),
      Entry("load printers", Text("no")),
      Entry("printing", Text("bsd")),
      Entry("printcap name", Text("/dev/null")),
      Entry("disable spoolss", Text("yes")) ]
  }

  /** `workgroup.lower() if workgroup else ''` on the NetBIOS lookup. */
  function Workgroup(netbios: Option<string>): string
  {
    match netbios
    case None => ""
    case Some(w) => if w == "" then "" else Lower(w)
  }

  /** The first assignments of the join branch of `configure_samba`, in
      program order: identity, logging, security and realm. */
  function JoinServerAssignments(workgroup: string, realm: string): seq<Entry>
  {
    [ Entry("workgroup", Text(workgroup)),
      Entry("server string", Text("StrongLink Samba Server")),
      Entry("log file", Text("/var/log/samba/log.%m")),
      Entry("log level", Text("3")),
      Entry("max log size", Text("50")),
      Entry("security", Text("ads")),
      Entry("encrypt passwords", Text("yes")),
      Entry("passdb backend", Text("tdbsam")),
      Entry("kerberos method", Text("secrets and keytab")),
      Entry("realm", Text(realm)),
      Entry("vfs objects", Text("acl_xattr")) ]
  }

  /** The remaining assignments of the join branch, in program order: file
      attributes, signing, name service and printing. */
  function JoinShareAssignments(): seq<Entry>
  {
    [ Entry("map acl inherit", Text("yes")),
      Entry("store dos attributes", Text("yes")),
      Entry("deadtime", Text("10")),
      Entry("client signing", Text("auto")),
      Entry("server signing", Text("auto")),
      Entry("dns proxy", Text("no")),
      Entry("load printers", Text("no")),
      Entry("printing", Text("bsd")),
      Entry("printcap name", Text("/dev/null")),
      Entry("disable spoolss", Text("yes")),
      Entry("map untrusted to domain", Text("yes")) ]
  }

  /** The assignments of the join branch of `configure_samba`, in program
      order, for the given workgroup and realm values. */
  function JoinAssignments(workgroup: string, realm: string): seq<Entry>
  {
    JoinServerAssignments(workgroup, realm) + JoinShareAssignments()
  }

  /** `create_samba_default_config`: the document it writes, one `global`
      section holding the assignments (`DefaultBuiltInOrder` shows that
      assigning them one by one into a fresh section gives exactly this). */
  function DefaultDocument(): Document
  {
    [Section(GlobalSection, DefaultAssignments())]
  }

  /** The document the join branch of `configure_samba` writes
      (`JoinBuiltInOrder` shows that it is the result of its assignments). */
  function JoinDocument(netbios: Option<string>, domain: string): Document
  {
    [Section(GlobalSection, JoinAssignments(Workgroup(netbios), Lower(domain)))]
  }

  lemma DefaultKeysDistinct()
    ensures DistinctKeys(DefaultAssignments())
  {
  }

  lemma JoinServerDistinct(w: string, r: string)
    ensures DistinctKeys(JoinServerAssignments(w, r))
  {
  }

  lemma JoinShareDistinct()
    ensures DistinctKeys(JoinShareAssignments())
  {
  }

  lemma JoinHalvesDisjoint(w: string, r: string)
    ensures forall i, j :: 0 <= i < |JoinServerAssignments(w, r)| && 0 <= j < |JoinShareAssignments()| ==>
              JoinServerAssignments(w, r)[i].key != JoinShareAssignments()[j].key
  {
  }

  /** No key is assigned twice in the member document. */
  lemma JoinKeysDistinct(w: string, r: string)
    ensures DistinctKeys(JoinAssignments(w, r))
  {
    JoinServerDistinct(w, r);
    JoinShareDistinct();
    JoinHalvesDisjoint(w, r);
    DistinctKeysAppend(JoinServerAssignments(w, r), JoinShareAssignments());
  }

  /** No key is assigned twice, so assigning the entries one after the other
      into a fresh section, as `create_samba_default_config` does, leaves
      exactly the default document's entries, in program order. */
  lemma DefaultBuiltInOrder()
    ensures Assign([], DefaultAssignments()) == DefaultDocument()[0].entries
  {
    DefaultKeysDistinct();
    assert [] + DefaultAssignments() == DefaultAssignments();
    AssignFresh([], DefaultAssignments());
  }

  /** Likewise for the member document and the assignments of the join
      branch of `configure_samba`. */
  lemma JoinBuiltInOrder(netbios: Option<string>, domain: string)
    ensures Assign([], JoinAssignments(Workgroup(netbios), Lower(domain))) == JoinDocument(netbios, domain)[0].entries
  {
    var assignments := JoinAssignments(Workgroup(netbios), Lower(domain));
    JoinKeysDistinct(Workgroup(netbios), Lower(domain));
    assert [] + assignments == assignments;
    AssignFresh([], assignments);
  }

  /** Looking up a key of the default finds the value it was assigned. */
  lemma DefaultGetAt(i: int)
    requires 0 <= i < |DefaultAssignments()|
    ensures Get(DefaultAssignments(), DefaultAssignments()[i].key) == Some(DefaultAssignments()[i].value)
  {
    DefaultKeysDistinct();
    GetAt(DefaultAssignments(), i);
  }

  /** Looking up a key among the first member assignments finds the value
      it was assigned, in the whole member list too. */
  lemma JoinGetAt(w: string, r: string, i: int)
    requires 0 <= i < |JoinServerAssignments(w, r)|
    ensures Get(JoinAssignments(w, r), JoinServerAssignments(w, r)[i].key) == Some(JoinServerAssignments(w, r)[i].value)
  {
    JoinServerDistinct(w, r);
    GetAt(JoinServerAssignments(w, r), i);
    GetAppend(JoinServerAssignments(w, r), JoinShareAssignments(), JoinServerAssignments(w, r)[i].key);
  }

  /** The default is one `global` section: a standalone server of workgroup
      `StrongLink` with user-level security and no realm. */
  lemma DefaultDocumentShape()
    ensures Names(DefaultDocument()) == [GlobalSection]
    ensures Get(DefaultDocument()[0].entries, "workgroup") == Some(Text(DefaultWorkgroup))
    ensures Get(DefaultDocument()[0].entries, "security") == Some(Text("user"))
    ensures Get(DefaultDocument()[0].entries, "realm") == None
  {
    DefaultSetsWorkgroup();
    DefaultSetsUserSecurity();
    DefaultHasNoRealm();
  }

  lemma DefaultSetsWorkgroup()
    ensures Get(DefaultAssignments(), "workgroup") == Some(Text(DefaultWorkgroup))
  {
    DefaultGetAt(0);
  }

  lemma DefaultSetsUserSecurity()
    ensures Get(DefaultAssignments(), "security") == Some(Text("user"))
  {
    DefaultGetAt(5);
  }

  lemma DefaultHasNoRealm()
    ensures Get(DefaultAssignments(), "realm") == None
  {
    GetAbsent(DefaultAssignments(), "realm");
  }

  /** The member document is one `global` section with the lower-cased
      NetBIOS name as workgroup (empty when the lookup found nothing), the
      lower-cased domain as realm and domain security. */
  lemma JoinDocumentShape(netbios: Option<string>, domain: string)
    ensures Names(JoinDocument(netbios, domain)) == [GlobalSection]
    ensures Get(JoinDocument(netbios, domain)[0].entries, "workgroup") ==
            Some(Text(if netbios.Some? then Lower(netbios.value) else ""))
    ensures Get(JoinDocument(netbios, domain)[0].entries, "realm") == Some(Text(Lower(domain)))
    ensures Get(JoinDocument(netbios, domain)[0].entries, "security") == Some(Text("ads"))
  {
    var w, r := Workgroup(netbios), Lower(domain);
    JoinSetsWorkgroup(w, r);
    JoinSetsRealm(w, r);
    JoinSetsSecurity(w, r);
    assert w == if netbios.Some? then Lower(netbios.value) else "";
  }

  lemma JoinSetsWorkgroup(w: string, r: string)
    ensures Get(JoinAssignments(w, r), "workgroup") == Some(Text(w))
  {
    JoinGetAt(w, r, 0);
  }

  lemma JoinSetsRealm(w: string, r: string)
    ensures Get(JoinAssignments(w, r), "realm") == Some(Text(r))
  {
    JoinGetAt(w, r, 9);
  }

  lemma JoinSetsSecurity(w: string, r: string)
    ensures Get(JoinAssignments(w, r), "security") == Some(Text("ads"))
  {
    JoinGetAt(w, r, 5);
  }

  /** Only `workgroup` and `realm` depend on the inputs: two member documents
      agree on every other key. */
  lemma JoinDocumentFixedElsewhere(n1: Option<string>, d1: string, n2: Option<string>, d2: string, k: string)
    requires k != "workgroup" && k != "realm"
    ensures Get(JoinDocument(n1, d1)[0].entries, k) == Get(JoinDocument(n2, d2)[0].entries, k)
  {
    var s1, s2 := JoinServerAssignments(Workgroup(n1), Lower(d1)), JoinServerAssignments(Workgroup(n2), Lower(d2));
    GetAgreesOutside(s1, s2, {"workgroup", "realm"}, k);
    GetAppend(s1, JoinShareAssignments(), k);
    GetAppend(s2, JoinShareAssignments(), k);
  }
}
