/** The machine the script reconfigures: its configuration files, the SSSD
    cache directory and the external commands run on it. `configure_samba`
    and `configure_sssd` are transactions on this state: back the target up,
    rewrite it, restart the service, and on any failure copy the backup back
    and restart the service again. Whether an external command, a directory
    search or a file write fails is an input. */
module Host {
  import opened Wrappers
  import opened Text
  import opened Config
  import opened Directory
  import opened Samba
  import opened Sssd
  import opened Cli

  const SmbConf := "/etc/samba/smb.conf"
  const SmbBackup := "/etc/samba/smb.conf.bak"
  const SssdConf := "/etc/sssd/sssd.conf"
  const SssdBackup := "/etc/sssd/sssd.conf.bak"

  lemma PathsDistinct()
    ensures SmbBackup == SmbConf + ".bak" && SssdBackup == SssdConf + ".bak"
    ensures SmbConf != SmbBackup && SmbConf != SssdConf && SmbConf != SssdBackup
    ensures SmbBackup != SssdConf && SmbBackup != SssdBackup && SssdConf != SssdBackup
  {
    assert SmbConf[6] != SssdConf[6];
    assert SmbBackup[6] != SssdBackup[6];
  }

  datatype ServiceName = SmbService | SssdService

  /** The external commands the script runs and that change the machine. */
  datatype Command =
    | Stop(service: ServiceName)
    | Restart(service: ServiceName)
    | RealmJoin(user: string, domain: string)
    | RealmLeave(user: string, domain: string)

  /** Where a configuration transaction can fail. */
  datatype Faults = Faults(
    backupFails: bool,          // the backup copy or the default written in its place
    stopFails: bool,            // `systemctl stop` (SSSD only)
    writeFails: bool,           // writing the new configuration
    restartFails: bool,         // `systemctl restart` after the rewrite
    restoreFails: bool,         // copying the backup back in the handler
    rollbackRestartFails: bool) // `systemctl restart` after restoring the backup

  datatype Error =
    | BackupFailed                                // raised before the transaction began
    | ConfigFailed(service: ServiceName)          // `ConfigSambaException`, `ConfigSSSDException`
    | RestoreFailed(service: ServiceName)         // the copy back in the handler raised
    | RollbackRestartFailed(service: ServiceName) // the restart in the handler raised

  datatype Outcome = Done | Failed(error: Error)

  /** `ConfigObj(path)`: the document in the file, or an empty one when there
      is no such file. */
  function Read(files: map<string, Document>, path: string): Document
  {
    if path in files then files[path] else []
  }

  /** What the Samba backup holds: the configuration, or the default document
      when there was none. */
  function SambaBackupOf(files: map<string, Document>): Document
  {
    if SmbConf in files then files[SmbConf] else DefaultDocument()
  }

  /** What the SSSD backup holds: the configuration, or, when there was none,
      the previous backup rewritten as it was (empty when there was none). */
  function SssdBackupOf(files: map<string, Document>): Document
  {
    if SssdConf in files then files[SssdConf] else Read(files, SssdBackup)
  }

  /** The document the rewrite step of `configure_samba` writes. */
  function SambaTarget(domain: string, reset: bool, netbios: Reply<CrossRef>): Document
  {
    if reset || netbios.Unreachable? then DefaultDocument()
    else JoinDocument(FindNetbiosAsWritten(netbios.entries, domain), domain)
  }

  /** The rewrite step of `configure_samba` gets as far as the restart. */
  predicate SambaRewriteSucceeds(reset: bool, netbios: Reply<CrossRef>, faults: Faults)
  {
    !faults.writeFails && (reset || netbios.Entries?)
  }

  /** The document the join branch of `configure_sssd` writes. */
  function SssdTarget(conf: Document, domain: string, useIdMap: bool, sid: Reply<string>): Document
  {
    var sidResult := GetSid(sid);
    if sidResult.Err? then conf
    else
      match Configured(conf, domain, useIdMap, sidResult.value)
      case Ok(doc) => doc
      case Err(_) => conf
  }

  /** The steps of `configure_sssd` between the backup and the restart all
      succeed. */
  predicate SssdRewriteSucceeds(conf: Document, domain: string, reset: bool, sid: Reply<string>, faults: Faults)
  {
    && !reset && !faults.stopFails && !faults.writeFails
    && GetSid(sid).Ok? && ResolveDomainKey(conf, domain).Ok?
  }

  /** What a transaction reports once its handler has run: the exception
      the copy back or the restart in the handler raises, or else the
      transaction's own. */
  function RollbackOutcome(service: ServiceName, faults: Faults): Outcome
  {
    Failed(if faults.restoreFails then RestoreFailed(service)
           else if faults.rollbackRestartFails then RollbackRestartFailed(service)
           else ConfigFailed(service))
  }

  /** What a transaction reports, given whether its rewrite got as far as
      the restart. */
  function TransactionOutcome(service: ServiceName, rewriteOk: bool, faults: Faults): Outcome
  {
    if faults.backupFails then Failed(BackupFailed)
    else if rewriteOk && !faults.restartFails then Done
    else RollbackOutcome(service, faults)
  }

  /** The files a transaction leaves, from the files its `try` block left:
      on a failure the handler copies the backup back, unless that copy
      raises. */
  function Settled(rewritten: map<string, Document>, conf: string, backup: Document, rewriteOk: bool,
                   faults: Faults): map<string, Document>
  {
    if (rewriteOk && !faults.restartFails) || faults.restoreFails then rewritten
    else rewritten[conf := backup]
  }

  /** The restarts a transaction runs after its backup step: one after the
      rewrite, one after the copy back. */
  function Restarts(service: ServiceName, rewriteOk: bool, faults: Faults): seq<Command>
  {
    (if rewriteOk then [Restart(service)] else [])
    + (if (rewriteOk && !faults.restartFails) || faults.restoreFails then [] else [Restart(service)])
  }

  /** The files the `try` block of `configure_samba` leaves. */
  function SambaRewritten(files: map<string, Document>, domain: string, reset: bool, netbios: Reply<CrossRef>,
                          faults: Faults): map<string, Document>
  {
    if SambaRewriteSucceeds(reset, netbios, faults) then files[SmbConf := SambaTarget(domain, reset, netbios)]
    else files
  }

  /** The files `configure_samba` leaves. */
  function SambaFiles(files: map<string, Document>, domain: string, reset: bool, netbios: Reply<CrossRef>,
                      faults: Faults): map<string, Document>
  {
    if faults.backupFails then files
    else
      var backedUp := files[SmbBackup := SambaBackupOf(files)];
      Settled(SambaRewritten(backedUp, domain, reset, netbios, faults), SmbConf, SambaBackupOf(files),
              SambaRewriteSucceeds(reset, netbios, faults), faults)
  }

  /** The commands `configure_samba` runs. */
  function SambaCommands(reset: bool, netbios: Reply<CrossRef>, faults: Faults): seq<Command>
  {
    if faults.backupFails then [] else Restarts(SmbService, SambaRewriteSucceeds(reset, netbios, faults), faults)
  }

  /** The files after the body of the `try` block of `configure_sssd`: the
      reset branch rewrites the configuration as it is before it raises; the
      join branch writes the id-mapped document when every step before the
      write succeeds. */
  function SssdRewritten(files: map<string, Document>, domain: string, reset: bool, useIdMap: bool,
                         sid: Reply<string>, faults: Faults): map<string, Document>
  {
    if faults.stopFails then files
    else if reset then
      if faults.writeFails then files else files[SssdConf := Read(files, SssdConf)]
    else if SssdRewriteSucceeds(Read(files, SssdConf), domain, reset, sid, faults) then
      files[SssdConf := SssdTarget(Read(files, SssdConf), domain, useIdMap, sid)]
    else files
  }

  /** The files `configure_sssd` leaves. */
  function SssdFiles(files: map<string, Document>, domain: string, reset: bool, useIdMap: bool,
                     sid: Reply<string>, faults: Faults): map<string, Document>
  {
    if faults.backupFails then files
    else
      var backedUp := files[SssdBackup := SssdBackupOf(files)];
      Settled(SssdRewritten(backedUp, domain, reset, useIdMap, sid, faults), SssdConf, SssdBackupOf(files),
              SssdRewriteSucceeds(Read(files, SssdConf), domain, reset, sid, faults), faults)
  }

  /** The cache after `configure_sssd`: emptied of the listed names once SSSD
      has stopped; a rollback does not bring them back. */
  function SssdCache(cache: set<string>, faults: Faults): set<string>
  {
    if faults.backupFails || faults.stopFails then cache else set f | f in cache && Hidden(f)
  }

  /** The commands `configure_sssd` runs: the stop, then the restarts. */
  function SssdCommands(rewriteOk: bool, faults: Faults): seq<Command>
  {
    if faults.backupFails then [] else [Stop(SssdService)] + Restarts(SssdService, rewriteOk, faults)
  }

  /** What `configure_sssd` reports on the files it starts from. */
  function SssdOutcome(files: map<string, Document>, domain: string, reset: bool, sid: Reply<string>,
                       faults: Faults): Outcome
  {
    TransactionOutcome(SssdService, SssdRewriteSucceeds(Read(files, SssdConf), domain, reset, sid, faults), faults)
  }

  /** What `configure_samba` reports. */
  function SambaOutcome(reset: bool, netbios: Reply<CrossRef>, faults: Faults): Outcome
  {
    TransactionOutcome(SmbService, SambaRewriteSucceeds(reset, netbios, faults), faults)
  }

  /** Both transactions succeed: the script reaches `sys.exit(0)`. */
  predicate Reconfigured(files: map<string, Document>, domain: string, leave: bool, sid: Reply<string>,
                         netbios: Reply<CrossRef>, sssdFaults: Faults, sambaFaults: Faults)
  {
    SssdOutcome(files, domain, leave, sid, sssdFaults).Done? && SambaOutcome(leave, netbios, sambaFaults).Done?
  }

  /** The files after the two transactions; the Samba one runs only when the
      SSSD one succeeded. */
  function ReconfiguredFiles(files: map<string, Document>, domain: string, leave: bool, useIdMap: bool,
                             sid: Reply<string>, netbios: Reply<CrossRef>, sssdFaults: Faults,
                             sambaFaults: Faults): map<string, Document>
  {
    var afterSssd := SssdFiles(files, domain, leave, useIdMap, sid, sssdFaults);
    if SssdOutcome(files, domain, leave, sid, sssdFaults).Done? then
      SambaFiles(afterSssd, domain, leave, netbios, sambaFaults)
    else afterSssd
  }

  /** The commands the two transactions run. */
  function ReconfiguredCommands(files: map<string, Document>, domain: string, leave: bool, sid: Reply<string>,
                                netbios: Reply<CrossRef>, sssdFaults: Faults, sambaFaults: Faults): seq<Command>
  {
    SssdCommands(SssdRewriteSucceeds(Read(files, SssdConf), domain, leave, sid, sssdFaults), sssdFaults)
    + if SssdOutcome(files, domain, leave, sid, sssdFaults).Done? then
        SambaCommands(leave, netbios, sambaFaults)
      else []
  }

  /** `configure_samba` changes no file but `smb.conf` and its backup. */
  lemma SambaTouchesOnlyItsFiles(files: map<string, Document>, domain: string, reset: bool,
                                 netbios: Reply<CrossRef>, faults: Faults, path: string)
    requires path != SmbConf && path != SmbBackup
    ensures SameAt(SambaFiles(files, domain, reset, netbios, faults), files, path)
  {
  }

  /** A failed backup changes nothing; a failure after it, whose copy back
      succeeds, leaves `smb.conf` holding the backup: the configuration as it
      was, or the default document when there was none. */
  lemma SambaRollsBack(files: map<string, Document>, domain: string, reset: bool, netbios: Reply<CrossRef>,
                       faults: Faults)
    requires SambaOutcome(reset, netbios, faults).Failed? && !faults.restoreFails
    ensures faults.backupFails ==> SambaFiles(files, domain, reset, netbios, faults) == files
    ensures !faults.backupFails ==>
              SambaFiles(files, domain, reset, netbios, faults)
              == files[SmbBackup := SambaBackupOf(files)][SmbConf := SambaBackupOf(files)]
    ensures SmbConf in files ==> SambaFiles(files, domain, reset, netbios, faults)[SmbConf] == files[SmbConf]
  {
    PathsDistinct();
  }

  /** A successful `configure_samba` leaves the backup of the old
      configuration and the new document, and restarts Samba once. */
  lemma SambaSucceeds(files: map<string, Document>, domain: string, reset: bool, netbios: Reply<CrossRef>,
                      faults: Faults)
    requires SambaOutcome(reset, netbios, faults).Done?
    ensures SambaFiles(files, domain, reset, netbios, faults)
            == files[SmbBackup := SambaBackupOf(files)][SmbConf := SambaTarget(domain, reset, netbios)]
    ensures SambaCommands(reset, netbios, faults) == [Restart(SmbService)]
  {
  }

  /** `configure_samba` runs nothing but Samba restarts, at most two, and two
      exactly when the restart after the rewrite raised and the handler
      restarted Samba again. */
  lemma SambaOnlyRestarts(reset: bool, netbios: Reply<CrossRef>, faults: Faults)
    ensures forall c :: c in SambaCommands(reset, netbios, faults) ==> c == Restart(SmbService)
    ensures |SambaCommands(reset, netbios, faults)| == 2 <==>
              !faults.backupFails && SambaRewriteSucceeds(reset, netbios, faults)
              && faults.restartFails && !faults.restoreFails
  {
  }

  /** As written, joining a domain typed with an upper-case letter writes the
      member document with an empty workgroup, whatever the directory
      answers. */
  lemma SambaTargetUpperCaseDomain(domain: string, entries: seq<CrossRef>)
    requires HasUpper(domain)
    ensures SambaTarget(domain, false, Entries(entries)) == JoinDocument(None, domain)
  {
    AsWrittenMissesUpperCaseDomain(entries, domain);
  }

  /** For a domain typed in lower case, the member document carries the
      NetBIOS name of the first entry naming the domain, which comes no later
      than any entry that does. */
  lemma SambaTargetLowerCaseDomain(domain: string, entries: seq<CrossRef>, i: int)
    requires Lower(domain) == domain
    requires 0 <= i < |entries| && Lower(entries[i].namingContext) == Lower(SearchBase(domain))
    ensures exists k :: && 0 <= k <= i
                        && Lower(entries[k].namingContext) == Lower(SearchBase(domain))
                        && SambaTarget(domain, false, Entries(entries)) == JoinDocument(Some(entries[k].netbiosName), domain)
  {
    AsWrittenAgreesOnLowerCase(entries, domain);
    FindsOwnCrossReference(entries, domain, i);
  }

  /** `configure_sssd` changes no file but `sssd.conf` and its backup. */
  lemma SssdTouchesOnlyItsFiles(files: map<string, Document>, domain: string, reset: bool, useIdMap: bool,
                                sid: Reply<string>, faults: Faults, path: string)
    requires path != SssdConf && path != SssdBackup
    ensures SameAt(SssdFiles(files, domain, reset, useIdMap, sid, faults), files, path)
  {
  }

  /** A failed backup changes nothing; a failure after it, whose copy back
      succeeds, leaves `sssd.conf` holding the backup. */
  lemma SssdRollsBack(files: map<string, Document>, domain: string, reset: bool, useIdMap: bool,
                      sid: Reply<string>, faults: Faults)
    requires SssdOutcome(files, domain, reset, sid, faults).Failed? && !faults.restoreFails
    ensures faults.backupFails ==> SssdFiles(files, domain, reset, useIdMap, sid, faults) == files
    ensures !faults.backupFails ==>
              SssdFiles(files, domain, reset, useIdMap, sid, faults)
              == files[SssdBackup := SssdBackupOf(files)][SssdConf := SssdBackupOf(files)]
    ensures SssdConf in files ==> SssdFiles(files, domain, reset, useIdMap, sid, faults)[SssdConf] == files[SssdConf]
  {
    PathsDistinct();
    if !faults.backupFails {
      var backedUp := files[SssdBackup := SssdBackupOf(files)];
      RewriteIsUndone(backedUp, domain, reset, useIdMap, sid, faults, SssdBackupOf(files));
    }
  }

  /** Copying any document over `sssd.conf` undoes the rewrite step. */
  lemma RewriteIsUndone(files: map<string, Document>, domain: string, reset: bool, useIdMap: bool,
                        sid: Reply<string>, faults: Faults, doc: Document)
    ensures SssdRewritten(files, domain, reset, useIdMap, sid, faults)[SssdConf := doc] == files[SssdConf := doc]
  {
  }

  /** Reset mode of `configure_sssd` always fails, yet an existing
      configuration survives it, even when the copy back raises. */
  lemma SssdResetFails(files: map<string, Document>, domain: string, useIdMap: bool, sid: Reply<string>,
                       faults: Faults)
    ensures SssdOutcome(files, domain, true, sid, faults).Failed?
    ensures SssdConf in files ==> SssdFiles(files, domain, true, useIdMap, sid, faults)[SssdConf] == files[SssdConf]
  {
    PathsDistinct();
  }

  /** A successful `configure_sssd` has emptied the cache of the listed
      names, and has stopped and restarted SSSD once each. */
  lemma SssdSucceedsOnce(files: map<string, Document>, domain: string, reset: bool, sid: Reply<string>,
                         cache: set<string>, faults: Faults)
    requires SssdOutcome(files, domain, reset, sid, faults).Done?
    ensures SssdCache(cache, faults) == set f | f in cache && Hidden(f)
    ensures SssdCommands(SssdRewriteSucceeds(Read(files, SssdConf), domain, reset, sid, faults), faults)
            == [Stop(SssdService), Restart(SssdService)]
  {
  }

  /** A successful `configure_sssd` is a join: it leaves the backup of the
      old configuration and the id-mapped document. */
  lemma SssdSucceeds(files: map<string, Document>, domain: string, reset: bool, useIdMap: bool,
                     sid: Reply<string>, faults: Faults)
    requires SssdOutcome(files, domain, reset, sid, faults).Done?
    ensures !reset && GetSid(sid).Ok? && ResolveDomainKey(Read(files, SssdConf), domain).Ok?
    ensures SssdFiles(files, domain, reset, useIdMap, sid, faults)
            == files[SssdBackup := SssdBackupOf(files)][SssdConf := SssdTarget(Read(files, SssdConf), domain, useIdMap, sid)]
  {
    PathsDistinct();
    var conf := Read(files, SssdConf);
    assert SssdRewriteSucceeds(conf, domain, reset, sid, faults) && !faults.restartFails;
    var backedUp := files[SssdBackup := SssdBackupOf(files)];
    assert Read(backedUp, SssdConf) == conf;
    assert SssdRewritten(backedUp, domain, reset, useIdMap, sid, faults)
        == backedUp[SssdConf := SssdTarget(conf, domain, useIdMap, sid)];
  }

  /** Leaving never exits 0: the SSSD reset fails, so the Samba transaction
      never runs and the Samba files stay as they were; an existing SSSD
      configuration survives. */
  lemma LeaveKeepsConfiguration(files: map<string, Document>, domain: string, useIdMap: bool, sid: Reply<string>,
                                netbios: Reply<CrossRef>, sssdFaults: Faults, sambaFaults: Faults)
    ensures !Reconfigured(files, domain, true, sid, netbios, sssdFaults, sambaFaults)
    ensures var after := ReconfiguredFiles(files, domain, true, useIdMap, sid, netbios, sssdFaults, sambaFaults);
            && SameAt(after, files, SmbConf) && SameAt(after, files, SmbBackup)
            && (SssdConf in files ==> after[SssdConf] == files[SssdConf])
    ensures ReconfiguredCommands(files, domain, true, sid, netbios, sssdFaults, sambaFaults)
            == SssdCommands(false, sssdFaults)
  {
    PathsDistinct();
    SssdResetFails(files, domain, useIdMap, sid, sssdFaults);
    SssdTouchesOnlyItsFiles(files, domain, true, useIdMap, sid, sssdFaults, SmbConf);
    SssdTouchesOnlyItsFiles(files, domain, true, useIdMap, sid, sssdFaults, SmbBackup);
  }

  /** Exit status 0 means a join whose transactions both succeeded: SSSD
      holds the id-mapped document, Samba the member document built from the
      directory's answer, each beside the backup of what was there. */
  lemma JoinWritesBoth(files: map<string, Document>, domain: string, leave: bool, useIdMap: bool,
                       sid: Reply<string>, netbios: Reply<CrossRef>, sssdFaults: Faults, sambaFaults: Faults)
    requires Reconfigured(files, domain, leave, sid, netbios, sssdFaults, sambaFaults)
    ensures !leave && netbios.Entries?
    ensures ReconfiguredFiles(files, domain, leave, useIdMap, sid, netbios, sssdFaults, sambaFaults)
            == files[SssdBackup := SssdBackupOf(files)]
                    [SssdConf := SssdTarget(Read(files, SssdConf), domain, useIdMap, sid)]
                    [SmbBackup := SambaBackupOf(files)]
                    [SmbConf := JoinDocument(FindNetbiosAsWritten(netbios.entries, domain), domain)]
  {
    PathsDistinct();
    SssdSucceeds(files, domain, leave, useIdMap, sid, sssdFaults);
    var afterSssd := SssdFiles(files, domain, leave, useIdMap, sid, sssdFaults);
    SssdTouchesOnlyItsFiles(files, domain, leave, useIdMap, sid, sssdFaults, SmbConf);
    SambaSucceeds(afterSssd, domain, leave, netbios, sambaFaults);
  }

  /** Exit status 0 follows exactly one SSSD stop and one restart of each
      service. */
  lemma JoinRunsThreeCommands(files: map<string, Document>, domain: string, leave: bool, sid: Reply<string>,
                              netbios: Reply<CrossRef>, sssdFaults: Faults, sambaFaults: Faults)
    requires Reconfigured(files, domain, leave, sid, netbios, sssdFaults, sambaFaults)
    ensures ReconfiguredCommands(files, domain, leave, sid, netbios, sssdFaults, sambaFaults)
            == [Stop(SssdService), Restart(SssdService), Restart(SmbService)]
  {
    SssdSucceedsOnce(files, domain, leave, sid, {}, sssdFaults);
    SambaSucceeds(files, domain, leave, netbios, sambaFaults);
  }

  /** A join whose SSSD transaction succeeded but whose Samba transaction
      failed exits 1 with SSSD left reconfigured: only Samba rolls back. */
  lemma SambaFailureKeepsSssd(files: map<string, Document>, domain: string, useIdMap: bool, sid: Reply<string>,
                              netbios: Reply<CrossRef>, sssdFaults: Faults, sambaFaults: Faults)
    requires SssdOutcome(files, domain, false, sid, sssdFaults).Done?
    requires SambaOutcome(false, netbios, sambaFaults).Failed?
    ensures !Reconfigured(files, domain, false, sid, netbios, sssdFaults, sambaFaults)
    ensures var after := ReconfiguredFiles(files, domain, false, useIdMap, sid, netbios, sssdFaults, sambaFaults);
            && SssdConf in after && after[SssdConf] == SssdTarget(Read(files, SssdConf), domain, useIdMap, sid)
            && (!sambaFaults.restoreFails && SmbConf in files ==> SmbConf in after && after[SmbConf] == files[SmbConf])
  {
    PathsDistinct();
    SssdSucceeds(files, domain, false, useIdMap, sid, sssdFaults);
    var afterSssd := SssdFiles(files, domain, false, useIdMap, sid, sssdFaults);
    SssdTouchesOnlyItsFiles(files, domain, false, useIdMap, sid, sssdFaults, SmbConf);
    SambaTouchesOnlyItsFiles(afterSssd, domain, false, netbios, sambaFaults, SssdConf);
    if !sambaFaults.restoreFails {
      SambaRollsBack(afterSssd, domain, false, netbios, sambaFaults);
    }
  }

  /** The realm command of the main flow. */
  function RealmCommand(user: string, domain: string, leave: bool): Command
  {
    if leave then RealmLeave(user, domain) else RealmJoin(user, domain)
  }

  /** `glob` does not list names that start with a dot. */
  predicate Hidden(name: string)
  {
    |name| > 0 && name[0] == '.'
  }

  lemma AppendAssociative(a: seq<Command>, b: seq<Command>, c: seq<Command>)
    ensures a + b + c == a + (b + c)
  {
  }

  /** Both maps hold the same thing at `path`, or neither holds it. */
  predicate SameAt(a: map<string, Document>, b: map<string, Document>, path: string)
  {
    (path in a <==> path in b) && (path in a ==> a[path] == b[path])
  }

  class Machine {
    /** Configuration files by path. */
    var files: map<string, Document>
    /** The names in the SSSD cache directory `/var/lib/sss/db`. */
    var cache: set<string>
    /** The external commands run so far, in order. */
    var commands: seq<Command>

    constructor(files0: map<string, Document>, cache0: set<string>)
      ensures files == files0 && cache == cache0 && commands == []
    {
      files := files0;
      cache := cache0;
      commands := [];
    }

    /** `shutil.copy(src, dst)` */
    method Copy(src: string, dst: string)
      requires src in files
      modifies this
      ensures files == old(files)[dst := old(files)[src]]
      ensures cache == old(cache) && commands == old(commands)
    {
      files := files[dst := files[src]];
    }

    /** `cfg.write()` to `path`; nothing changes when the write fails. */
    method Write(path: string, doc: Document, fails: bool) returns (ok: bool)
      modifies this
      ensures ok == !fails
      ensures files == (if ok then old(files)[path := doc] else old(files))
      ensures cache == old(cache) && commands == old(commands)
    {
      if fails {
        return false;
      }
      files := files[path := doc];
      return true;
    }

    /** Runs an external command, which raises when it `fails`. */
    method Execute(c: Command, fails: bool) returns (ok: bool)
      modifies this
      ensures ok == !fails
      ensures commands == old(commands) + [c]
      ensures files == old(files) && cache == old(cache)
    {
      commands := commands + [c];
      return !fails;
    }

    /** Removes, one by one, every cache file `glob` lists in the cache directory. */
    method PurgeCache()
      modifies this
      ensures cache == (set f | f in old(cache) && Hidden(f))
      ensures files == old(files) && commands == old(commands)
    {
      var listed := set f | f in cache && !Hidden(f);
      ghost var kept := set f | f in cache && Hidden(f);
      assert cache == kept + listed;
      while listed != {}
        invariant cache == kept + listed
        invariant kept !! listed
        invariant files == old(files) && commands == old(commands)
        decreases |listed|
      {
        var f :| f in listed;
        cache := cache - {f};
        listed := listed - {f};
      }
    }

    /** The backup step of `configure_samba`: copy the configuration to the
        backup path, or write the default document there when there is no
        configuration. */
    method BackupSamba(fails: bool) returns (ok: bool)
      modifies this
      ensures ok == !fails
      ensures files == if ok then old(files)[SmbBackup := SambaBackupOf(old(files))] else old(files)
      ensures cache == old(cache) && commands == old(commands)
    {
      if SmbConf !in files {
        ok := Write(SmbBackup, DefaultDocument(), fails);
      } else if fails {
        ok := false;
      } else {
        Copy(SmbConf, SmbBackup);
        ok := true;
      }
    }

    /** The rewrite step of `configure_samba`: the member document built from
        the NetBIOS lookup, or the default document when resetting. A failed
        lookup raises before anything is written. */
    method RewriteSamba(domain: string, reset: bool, netbios: Reply<CrossRef>, writeFails: bool) returns (ok: bool)
      modifies this
      ensures ok == (!writeFails && (reset || netbios.Entries?))
      ensures files == if ok then old(files)[SmbConf := SambaTarget(domain, reset, netbios)] else old(files)
      ensures cache == old(cache) && commands == old(commands)
    {
      if !reset {
        var workgroup := LookupNetbios(netbios, domain);
        if workgroup.Err? {
          ok := false;
        } else {
          ok := Write(SmbConf, JoinDocument(workgroup.value, domain), writeFails);
        }
      } else {
        ok := Write(SmbConf, DefaultDocument(), writeFails);
      }
    }

    /** The exception handler of both transactions: copy the backup over the
        configuration and restart the service; the copy and the restart may
        each raise in turn. */
    method Restore(conf: string, backup: string, service: ServiceName, faults: Faults)
      returns (outcome: Outcome)
      requires backup in files
      modifies this
      ensures outcome == RollbackOutcome(service, faults)
      ensures files == if faults.restoreFails then old(files) else old(files)[conf := old(files)[backup]]
      ensures commands == old(commands) + if faults.restoreFails then [] else [Restart(service)]
      ensures cache == old(cache)
    {
      if faults.restoreFails {
        return Failed(RestoreFailed(service));
      }
      Copy(backup, conf);
      var restarted := Execute(Restart(service), faults.rollbackRestartFails);
      if !restarted {
        return Failed(RollbackRestartFailed(service));
      }
      return Failed(ConfigFailed(service));
    }

    /** The `try` block of `configure_samba`: write the new document, then
        restart Samba. */
    method TrySamba(domain: string, reset: bool, netbios: Reply<CrossRef>, faults: Faults) returns (ok: bool)
      modifies this
      ensures ok == (SambaRewriteSucceeds(reset, netbios, faults) && !faults.restartFails)
      ensures files == if SambaRewriteSucceeds(reset, netbios, faults)
                       then old(files)[SmbConf := SambaTarget(domain, reset, netbios)] else old(files)
      ensures commands == old(commands) + if SambaRewriteSucceeds(reset, netbios, faults) then [Restart(SmbService)] else []
      ensures cache == old(cache)
    {
      ok := RewriteSamba(domain, reset, netbios, faults.writeFails);
      if ok {
        ok := Execute(Restart(SmbService), faults.restartFails);
      }
    }

    /** The `try` block of `configure_samba` and its handler: on a failure,
        copy the backup back and restart Samba. */
    method AttemptSamba(domain: string, reset: bool, netbios: Reply<CrossRef>, faults: Faults)
      returns (outcome: Outcome)
      requires !faults.backupFails && SmbBackup in files
      modifies this
      ensures outcome == SambaOutcome(reset, netbios, faults)
      ensures files == Settled(SambaRewritten(old(files), domain, reset, netbios, faults), SmbConf,
                               old(files)[SmbBackup], SambaRewriteSucceeds(reset, netbios, faults), faults)
      ensures commands == old(commands) + Restarts(SmbService, SambaRewriteSucceeds(reset, netbios, faults), faults)
      ensures cache == old(cache)
    {
      PathsDistinct();
      var ok := TrySamba(domain, reset, netbios, faults);
      if ok {
        return Done;
      }
      ghost var restarted := commands[|old(commands)|..];
      outcome := Restore(SmbConf, SmbBackup, SmbService, faults);
      if !faults.restoreFails {
        AppendAssociative(old(commands), restarted, [Restart(SmbService)]);
      }
    }

    /** `configure_samba`: back `smb.conf` up, then run the rewrite and its
        handler. */
    method ConfigureSamba(domain: string, reset: bool, netbios: Reply<CrossRef>, faults: Faults)
      returns (outcome: Outcome)
      modifies this
      ensures outcome == SambaOutcome(reset, netbios, faults)
      ensures files == SambaFiles(old(files), domain, reset, netbios, faults)
      ensures commands == old(commands) + SambaCommands(reset, netbios, faults)
      ensures cache == old(cache)
    {
      var ok := BackupSamba(faults.backupFails);
      if !ok {
        return Failed(BackupFailed);
      }
      outcome := AttemptSamba(domain, reset, netbios, faults);
    }

    /** The backup step of `configure_sssd`: copy the configuration to the
        backup path; when there is no configuration, `create_default_sssd_config`
        on the backup path reads the backup and writes it back, creating an
        empty one when there is none. */
    method BackupSssd(fails: bool) returns (ok: bool)
      modifies this
      ensures ok == !fails
      ensures files == if ok then old(files)[SssdBackup := SssdBackupOf(old(files))] else old(files)
      ensures cache == old(cache) && commands == old(commands)
    {
      if SssdConf !in files {
        ok := Write(SssdBackup, Read(files, SssdBackup), fails);
      } else if fails {
        ok := false;
      } else {
        Copy(SssdConf, SssdBackup);
        ok := true;
      }
    }

    /** Stops SSSD and, when that succeeded, empties its cache. */
    method StopSssd(stopFails: bool) returns (ok: bool)
      modifies this
      ensures ok == !stopFails
      ensures commands == old(commands) + [Stop(SssdService)]
      ensures cache == if ok then (set f | f in old(cache) && Hidden(f)) else old(cache)
      ensures files == old(files)
    {
      ok := Execute(Stop(SssdService), stopFails);
      if ok {
        PurgeCache();
      }
    }

    /** The join branch of `configure_sssd`: look the domain SID up, read the
        configuration, resolve the domain's section, set the id-mapping keys in
        it and write the document back. */
    method UpdateSssd(domain: string, useIdMap: bool, sid: Reply<string>, writeFails: bool) returns (ok: bool)
      modifies this
      ensures ok == (!writeFails && GetSid(sid).Ok? && ResolveDomainKey(Read(old(files), SssdConf), domain).Ok?)
      ensures files == if ok then old(files)[SssdConf := SssdTarget(Read(old(files), SssdConf), domain, useIdMap, sid)] else old(files)
      ensures cache == old(cache) && commands == old(commands)
    {
      var sidResult := GetSid(sid);
      if sidResult.Err? {
        return false;
      }
      var doc := Read(files, SssdConf);
      var key := ResolveDomainKey(doc, domain);
      if key.Err? {
        return false;
      }
      var section := GetSection(doc, key.value).value;
      section := Set(section, IdMappingKey, Flag(useIdMap));
      if useIdMap {
        section := Set(section, RangeMinKey, Number(RangeMin));
        section := Set(section, RangeSizeKey, Number(RangeSize));
        section := Set(section, DomainSidKey, Text(sidResult.value));
      } else {
        section := Pop(section, RangeMinKey);
        section := Pop(section, RangeSizeKey);
        section := Pop(section, DomainSidKey);
      }
      doc := PutSection(doc, key.value, section);
      ok := Write(SssdConf, doc, writeFails);
    }

    /** The reset branch of `configure_sssd`: `create_default_sssd_config`
        rewrites the configuration as it is (creating an empty one when there
        is none); the write that follows names `sssdcfg`, which only the join
        branch binds, so the branch always raises. */
    method ResetSssd(writeFails: bool) returns (ok: bool)
      modifies this
      ensures !ok
      ensures files == if writeFails then old(files) else old(files)[SssdConf := Read(old(files), SssdConf)]
      ensures cache == old(cache) && commands == old(commands)
    {
      var written := Write(SssdConf, Read(files, SssdConf), writeFails);
      ok := false;
    }

    /** The body of the `try` block of `configure_sssd`: stop SSSD, empty its
        cache, rewrite the configuration and restart SSSD. A failure leaves at
        most the configuration changed. */
    method RewriteSssd(domain: string, reset: bool, useIdMap: bool, sid: Reply<string>, faults: Faults)
      returns (ok: bool)
      modifies this
      ensures ok == (SssdRewriteSucceeds(Read(old(files), SssdConf), domain, reset, sid, faults) && !faults.restartFails)
      ensures files == SssdRewritten(old(files), domain, reset, useIdMap, sid, faults)
      ensures cache == if faults.stopFails then old(cache) else (set f | f in old(cache) && Hidden(f))
      ensures commands == old(commands) + [Stop(SssdService)]
                          + if SssdRewriteSucceeds(Read(old(files), SssdConf), domain, reset, sid, faults)
                            then [Restart(SssdService)] else []
    {
      ok := StopSssd(faults.stopFails);
      if !ok {
        return;
      }
      if !reset {
        ok := UpdateSssd(domain, useIdMap, sid, faults.writeFails);
      } else {
        ok := ResetSssd(faults.writeFails);
      }
      if ok {
        ok := Execute(Restart(SssdService), faults.restartFails);
      }
    }

    /** The `try` block of `configure_sssd` and its handler: stop SSSD, empty
        its cache, set the id-mapping keys in the domain's section and restart
        SSSD; on a failure, copy the backup back and restart SSSD. The cache
        is not restored. */
    method AttemptSssd(domain: string, reset: bool, useIdMap: bool, sid: Reply<string>, faults: Faults)
      returns (outcome: Outcome)
      requires !faults.backupFails && SssdBackup in files
      modifies this
      ensures outcome == SssdOutcome(old(files), domain, reset, sid, faults)
      ensures files == Settled(SssdRewritten(old(files), domain, reset, useIdMap, sid, faults), SssdConf,
                               old(files)[SssdBackup],
                               SssdRewriteSucceeds(Read(old(files), SssdConf), domain, reset, sid, faults), faults)
      ensures cache == SssdCache(old(cache), faults)
      ensures commands == old(commands) + SssdCommands(SssdRewriteSucceeds(Read(old(files), SssdConf), domain, reset, sid, faults), faults)
    {
      PathsDistinct();
      ghost var rewriteOk := SssdRewriteSucceeds(Read(files, SssdConf), domain, reset, sid, faults);
      ghost var restarted := if rewriteOk then [Restart(SssdService)] else [];
      var ok := RewriteSssd(domain, reset, useIdMap, sid, faults);
      if ok || faults.restoreFails {
        AppendAssociative(old(commands), [Stop(SssdService)], restarted);
      }
      if ok {
        return Done;
      }
      outcome := Restore(SssdConf, SssdBackup, SssdService, faults);
      if !faults.restoreFails {
        AppendAssociative(old(commands) + [Stop(SssdService)], restarted, [Restart(SssdService)]);
        AppendAssociative(old(commands), [Stop(SssdService)], restarted + [Restart(SssdService)]);
      }
    }

    /** `configure_sssd`: back `sssd.conf` up, then run the rewrite and its
        handler. Reset mode always fails and rolls back. */
    method ConfigureSssd(domain: string, reset: bool, useIdMap: bool, sid: Reply<string>, faults: Faults)
      returns (outcome: Outcome)
      modifies this
      ensures outcome == SssdOutcome(old(files), domain, reset, sid, faults)
      ensures files == SssdFiles(old(files), domain, reset, useIdMap, sid, faults)
      ensures cache == SssdCache(old(cache), faults)
      ensures commands == old(commands) + SssdCommands(SssdRewriteSucceeds(Read(old(files), SssdConf), domain, reset, sid, faults), faults)
    {
      PathsDistinct();
      var ok := BackupSssd(faults.backupFails);
      if !ok {
        return Failed(BackupFailed);
      }
      assert Read(files, SssdConf) == Read(old(files), SssdConf);
      outcome := AttemptSssd(domain, reset, useIdMap, sid, faults);
    }

    /** The two configuration transactions the main flow runs after the
        realm command, SSSD first; the first failure ends the script with
        status 1. */
    method Reconfigure(domain: string, leave: bool, useIdMap: bool, sid: Reply<string>, netbios: Reply<CrossRef>,
                       sssdFaults: Faults, sambaFaults: Faults)
      returns (exitCode: int)
      modifies this
      ensures exitCode == if Reconfigured(old(files), domain, leave, sid, netbios, sssdFaults, sambaFaults) then 0 else 1
      ensures files == ReconfiguredFiles(old(files), domain, leave, useIdMap, sid, netbios, sssdFaults, sambaFaults)
      ensures cache == SssdCache(old(cache), sssdFaults)
      ensures commands == old(commands) + ReconfiguredCommands(old(files), domain, leave, sid, netbios, sssdFaults, sambaFaults)
    {
      ghost var sssdCommands := SssdCommands(SssdRewriteSucceeds(Read(files, SssdConf), domain, leave, sid, sssdFaults), sssdFaults);
      var outcome := ConfigureSssd(domain, leave, useIdMap, sid, sssdFaults);
      if outcome.Failed? {
        return 1;
      }
      outcome := ConfigureSamba(domain, leave, netbios, sambaFaults);
      AppendAssociative(old(commands), sssdCommands, SambaCommands(leave, netbios, sambaFaults));
      exitCode := if outcome.Failed? then 1 else 0;
    }

    /** The script's main flow: parse the id-mapping argument; when joining,
        stop early if `realm list` already shows the domain, else join it;
        when leaving, leave it; then reconfigure SSSD and Samba. Returns the
        exit status. */
    method Run(user: string, domain: string, idMapToken: string, leave: bool,
               realmList: seq<string>, realmFails: bool,
               sid: Reply<string>, netbios: Reply<CrossRef>, sssdFaults: Faults, sambaFaults: Faults)
      returns (exitCode: int)
      modifies this
      ensures exitCode == 0 || exitCode == 1
      ensures ParseIdMapToken(idMapToken).Err? ==>
                exitCode == 1 && files == old(files) && cache == old(cache) && commands == old(commands)
      ensures ParseIdMapToken(idMapToken).Ok? && !leave && AlreadyJoined(domain, JoinedDomain(realmList)) ==>
                exitCode == 0 && files == old(files) && cache == old(cache) && commands == old(commands)
      ensures ParseIdMapToken(idMapToken).Ok? && (leave || !AlreadyJoined(domain, JoinedDomain(realmList))) ==>
                |commands| > |old(commands)| && commands[|old(commands)|] == RealmCommand(user, domain, leave)
      ensures ParseIdMapToken(idMapToken).Ok? && (leave || !AlreadyJoined(domain, JoinedDomain(realmList))) ==>
                var useIdMap := ParseIdMapToken(idMapToken).value;
                && exitCode == (if !realmFails && Reconfigured(old(files), domain, leave, sid, netbios, sssdFaults, sambaFaults)
                                then 0 else 1)
                && files == (if realmFails then old(files)
                             else ReconfiguredFiles(old(files), domain, leave, useIdMap, sid, netbios, sssdFaults, sambaFaults))
                && cache == (if realmFails then old(cache) else SssdCache(old(cache), sssdFaults))
                && commands == old(commands) + [RealmCommand(user, domain, leave)]
                               + (if realmFails then []
                                  else ReconfiguredCommands(old(files), domain, leave, sid, netbios, sssdFaults, sambaFaults))
    {
      var useIdMap := ParseIdMapToken(idMapToken);
      if useIdMap.Err? {
        return 1;
      }
      if !leave {
        var joined := DetectJoinedDomain(realmList);
        if AlreadyJoined(domain, joined) {
          return 0;
        }
      }
      var ok := Execute(RealmCommand(user, domain, leave), realmFails);
      if !ok {
        return 1;
      }
      exitCode := Reconfigure(domain, leave, useIdMap.value, sid, netbios, sssdFaults, sambaFaults);
    }
  }
}
