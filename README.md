# joinAD: joining a Linux host to an Active Directory realm

`joinAD.py` joins a host to an Active Directory realm with `realm join`, or
removes it with `realm leave`. It then rewrites the SSSD configuration and
the Samba configuration, and restarts both services. Each rewrite is a small
transaction:

1. Copy the configuration to a `.bak` file, or synthesize a backup when there
   is no configuration.
2. Rewrite the configuration and restart the service.
3. If anything raises after the backup, copy the backup back over the
   configuration, restart the service and raise a service-specific exception.

This Dafny project models that logic:

- The machine is a class `Host.Machine`. Its fields are the configuration
  files (a map from path to document), the names in the SSSD cache directory,
  and the log of external commands run. The two transactions and the main
  flow are methods on it.
- A configuration document is what ConfigObj holds. It is an ordered sequence
  of named sections, and each section is an ordered sequence of key/value
  entries (module `Config`).
- The two Samba documents are pure builders (`Samba`). So are the directory
  search bases and the NetBIOS result selection (`Directory`), the SSSD
  domain-section resolution and id-map edit (`Sssd`), and the command-line
  helpers (`Cli`).
- `Text` gives the Python string methods the program relies on: `lower`,
  `upper`, `split(sep)`, `split()`, `join` and the substring test.

External commands, directory searches, file writes and the copies of the
backup succeed or fail according to inputs (`Faults`, `Reply`). Each
transaction is specified by functions of the files it starts from
(`Host.SambaFiles`, `Host.SssdFiles`, `Host.SssdCache`, the command lists
and the outcomes); the methods are proved to produce exactly that state, and
the lemmas beside them state what the program promises about it.

Two behaviours of the program are kept as written:

- **Reset mode of `configure_sssd` always fails.** In leave mode the final
  `sssdcfg.write()` (joinAD.py:236) names a variable that only the join branch
  binds. So the reset always raises and rolls back. The main flow therefore
  never reaches `configure_samba` when leaving, and a leave always exits with
  status 1. `Host.SssdResetFails` and `Host.LeaveKeepsConfiguration` state this.
- **The SSSD backup reads its own file when there is no configuration.**
  `create_default_sssd_config(sssd.conf.bak)` reads the backup path itself
  and writes it back. The backup is then the previous backup, or an empty
  document if there was none.

The NetBIOS lookup in the Samba transaction compares names as the program
does: the lower-cased naming context against components built from the
domain as typed. A domain typed with an upper-case letter therefore never
matches, and the member document gets an empty workgroup. The corrected,
case-insensitive lookup is defined beside it, with its properties proved.
See "Findings".

## Model

| member | source | states |
|---|---|---|
| Text.SplitJoin | joinAD.py:52 | joining the parts of `s.split(c)` with `c` gives `s` back |
| Text.JoinSplit | joinAD.py:52 | splitting a join of separator-free parts gives the parts back |
| Text.JoinPrefixedSplit | joinAD.py:73 | `sep.join([p + x for x in s.split(c)])` is `p` followed by `s` with every `c` replaced by `sep + p` |
| Text.WordsNonEmpty | joinAD.py:299 | `split()` yields a word exactly when the line has a non-space character |
| Text.LowerOfUpper | joinAD.py:278 | lower-casing an upper-cased string equals lower-casing the original |
| Config.Get | joinAD.py:223-231 | a lookup finds nothing exactly when no entry carries the key |
| Config.Set | joinAD.py:223-227 | after `section[k] = v` the key maps to `v`; every other key keeps its value; the key set gains `k`; the other entries keep their order |
| Config.AssignFresh | joinAD.py:130-153 | assigning distinct keys that are new to a section, one after the other, appends them in the order they were assigned |
| Config.Pop | joinAD.py:229-231 | after `section.pop(k, None)` the key is absent, every other key keeps its value, and the other entries keep their order |
| Config.SetKeepsDistinct | joinAD.py:223-227 | setting a key never repeats a key |
| Config.PopKeepsDistinct | joinAD.py:229-231 | popping a key never repeats a key |
| Config.GetSection | joinAD.py:212 | a section lookup fails exactly when no section has the name; otherwise it returns the entries of the first section with that name |
| Config.PutSection | joinAD.py:223 | replacing a section's entries in place keeps all section names and their order, and leaves every other section unchanged |
| Directory.SearchBaseSpelled | joinAD.py:52 | the search base is `DC=` followed by the domain with each `.` replaced by `,DC=`; likewise with `dc=` for the NetBIOS components |
| Directory.SearchBaseComponents | joinAD.py:73 | for a domain without commas, splitting the search base at `,` gives one `DC=`/`dc=` component per dot-separated label, in order |
| Directory.GetSid | joinAD.py:43-65 | the SID is the first entry of the search; a failed search or an empty result raises |
| Directory.FirstNetbios | joinAD.py:87-89 | the result is the NetBIOS name of the first entry whose lower-cased naming context equals the target; it is nothing exactly when no entry matches |
| Directory.LookupNetbios | joinAD.py:68-89 | an unreachable directory raises; otherwise the result is the as-written selection: the first entry whose lower-cased naming context equals the components built from the domain as typed |
| Directory.LowerDomainComponents | joinAD.py:73 | lower-casing the components equals building them from the lower-cased domain |
| Directory.AsWrittenMissesUpperCaseDomain | joinAD.py:73-88 | as written, a domain with an upper-case letter never matches any entry |
| Directory.AsWrittenCounterexample | joinAD.py:73-89 | for `EXAMPLE.COM` and its own cross-reference entry, the as-written lookup finds nothing and the corrected lookup finds `EXAMPLE` |
| Directory.FindsOwnCrossReference | joinAD.py:73-89 | for any reply, the corrected lookup finds a name as soon as one entry carries the domain's search base in any case: the name of the first matching entry, which comes no later than that one |
| Directory.FindNetbiosIgnoresCase | joinAD.py:87-88 | the corrected lookup gives the same answer for domains that differ only in case |
| Directory.AsWrittenAgreesOnLowerCase | joinAD.py:87-88 | for a lower-case domain the as-written and corrected lookups agree |
| Samba.DefaultKeysDistinct | joinAD.py:95-107 | the default document assigns no key twice |
| Samba.JoinKeysDistinct | joinAD.py:131-153 | the member document assigns no key twice |
| Samba.DefaultBuiltInOrder | joinAD.py:93-107 | assigning the default entries one after the other into an empty `global` section, as the program does, gives exactly the default document's entries, in program order |
| Samba.JoinBuiltInOrder | joinAD.py:130-153 | assigning the member entries one after the other into an empty `global` section gives exactly the member document's entries, in program order |
| Samba.DefaultDocumentShape | joinAD.py:93-107 | the default is one `global` section with workgroup `StrongLink`, security `user` and no realm |
| Samba.JoinDocumentShape | joinAD.py:131-141 | the member document is one `global` section; workgroup is the lower-cased NetBIOS name or `''`; realm is the lower-cased domain; security is `ads` |
| Samba.JoinDocumentFixedElsewhere | joinAD.py:131-153 | two member documents agree on every key except `workgroup` and `realm` |
| Sssd.CaselessMatches | joinAD.py:213 | the matches are exactly the names equal to the key up to case; the first match is the first such name in document order |
| Sssd.ResolveDomainKey | joinAD.py:207-221 | an exact `domain/<domain>` section is used unchanged; otherwise the first case-insensitive match in document order is used; it fails exactly when no section matches up to case |
| Sssd.ResolvesOtherCase | joinAD.py:209-221 | a request for `example.com` resolves to the section `domain/EXAMPLE.COM` |
| Sssd.IdMapped | joinAD.py:223-231 | `ldap_id_mapping` becomes the flag. When enabled, the range minimum is 1000000, the range size 2000000 and the default domain SID is the SID. When disabled, those three keys are absent. No other key changes |
| Sssd.IdMappedKeepsOthers | joinAD.py:223-231 | the entries outside the four id-map keys are unchanged, in order |
| Sssd.IdMappedKeepsDistinct | joinAD.py:223-231 | the edit never repeats a key |
| Sssd.IdMappedIdempotent | joinAD.py:223-231 | applying the edit twice gives the same lookups as applying it once |
| Sssd.Configured | joinAD.py:204-231 | the join-mode edit fails exactly when section resolution fails |
| Sssd.ConfiguredChangesOnlyDomainSection | joinAD.py:223-231 | only the resolved section changes; names, order and all other sections stay |
| Cli.ParseIdMapToken | joinAD.py:269-274 | `true`/`t` give true, `false`/`f` give false, in any case; anything else is an error |
| Cli.ParseIgnoresCase | joinAD.py:269-271 | tokens that differ only in case parse alike |
| Cli.ParseUpperCase | joinAD.py:269-271 | an upper-cased token parses like the original |
| Cli.ParsesPythonBooleans | joinAD.py:269-272 | `True` and `False` parse to the booleans they name |
| Cli.UpnParts | joinAD.py:278 | for a user name without `@`, the principal splits at the first `@` into the user and the upper-cased domain |
| Cli.UpnIgnoresDomainCase | joinAD.py:278 | domains that differ only in case give the same principal |
| Cli.LastWord | joinAD.py:299 | `line.split()[-1]` is defined on a line containing `domain-name`, and is a non-empty word |
| Cli.DetectJoinedDomain | joinAD.py:295-299 | the scan loop returns the last word of the last line containing `domain-name`, or `''` |
| Cli.JoinedDomainEmpty | joinAD.py:295-299 | the scan reports `''` exactly when no line contains `domain-name` |
| Cli.JoinedDomainFromLastTagged | joinAD.py:296-299 | the scan reports the last word of the last line containing `domain-name` |
| Cli.NotJoinedWithoutDomainLine | joinAD.py:295-303 | with no `domain-name` line, the join is skipped only for an empty domain argument |
| Host.Machine.Copy | joinAD.py:119 | the destination afterwards holds the source's document; nothing else changes |
| Host.Machine.Write | joinAD.py:108 | a write replaces the file's document, or changes nothing when it fails |
| Host.Machine.Execute | joinAD.py:161 | the command is appended to the log; it succeeds unless it fails |
| Host.Machine.PurgeCache | joinAD.py:196-197 | afterwards the cache holds only the names `glob` does not list (those starting with a dot) |
| Host.Machine.BackupSamba | joinAD.py:114-120 | the Samba backup becomes the configuration, or the default document when there is none |
| Host.Machine.RewriteSamba | joinAD.py:123-158 | the configuration becomes the member document (built from the as-written NetBIOS lookup) or the default document; an unreachable directory writes nothing |
| Host.Machine.Restore | joinAD.py:162-171 | when the copy back succeeds, the configuration becomes the backup's document and the service is restarted; when it raises, nothing changes; the outcome names the exception raised |
| Host.Machine.TrySamba | joinAD.py:122-160 | the `try` block succeeds exactly when the write and the restart succeed; the configuration holds the new document once the write succeeded, and the restart is logged only then |
| Host.Machine.AttemptSamba | joinAD.py:122-171 | after the backup, the files, the command log and the outcome are exactly those of `Host.SambaFiles`, `Host.SambaCommands` and `Host.SambaOutcome` |
| Host.Machine.ConfigureSamba | joinAD.py:110-171 | the whole new state of the machine: the files, the command log and the outcome are exactly those the Samba transaction specifies; the cache is unchanged |
| Host.SambaTouchesOnlyItsFiles | joinAD.py:110-171 | `configure_samba` changes no file but `smb.conf` and its backup |
| Host.SambaRollsBack | joinAD.py:162-171 | a failed backup changes nothing; any later failure whose copy back succeeds leaves `smb.conf` holding the backup: the old configuration, or the default when there was none |
| Host.SambaSucceeds | joinAD.py:110-160 | on success `smb.conf` holds the new document beside the backup of the old one, and Samba was restarted once |
| Host.SambaOnlyRestarts | joinAD.py:159-170 | the transaction runs only Samba restarts, two exactly when the restart after the rewrite raised and the handler restarted again |
| Host.SambaTargetUpperCaseDomain | joinAD.py:73-88 | as written, joining a domain typed with an upper-case letter writes the member document with an empty workgroup, whatever the directory answers |
| Host.SambaTargetLowerCaseDomain | joinAD.py:73-89 | for a domain typed in lower case, the member document carries the NetBIOS name of the first entry naming the domain |
| Host.Machine.BackupSssd | joinAD.py:182-190 | the SSSD backup becomes the configuration, or the previous backup when there is no configuration (empty when there was none) |
| Host.Machine.StopSssd | joinAD.py:194-197 | SSSD is stopped; when that succeeds, the cache is emptied of every listed name |
| Host.Machine.UpdateSssd | joinAD.py:199-231 | succeeds exactly when the SID lookup, the section resolution and the write succeed, and then writes the id-mapped document |
| Host.Machine.ResetSssd | joinAD.py:232-236 | the reset branch always fails, after rewriting the configuration as it was |
| Host.Machine.RewriteSssd | joinAD.py:192-239 | the files are those `Host.SssdRewritten` gives: only the configuration changes, and only when a step's write happened; the cache purge is kept; SSSD is stopped, then restarted only when every step before the restart succeeded |
| Host.Machine.AttemptSssd | joinAD.py:192-250 | after the backup, the files, cache, command log and outcome are exactly those of the SSSD transaction's specification |
| Host.Machine.ConfigureSssd | joinAD.py:178-250 | the whole new state of the machine: the files (`Host.SssdFiles`), the cache (`Host.SssdCache`), the command log (`Host.SssdCommands`) and the outcome |
| Host.RewriteIsUndone | joinAD.py:240-248 | copying a document over `sssd.conf` undoes whatever the `try` block wrote |
| Host.SssdTouchesOnlyItsFiles | joinAD.py:178-250 | `configure_sssd` changes no file but `sssd.conf` and its backup |
| Host.SssdRollsBack | joinAD.py:240-250 | a failed backup changes nothing; any later failure whose copy back succeeds leaves `sssd.conf` holding the backup |
| Host.SssdResetFails | joinAD.py:232-250 | reset mode always fails, and an existing configuration survives it even when the copy back raises |
| Host.SssdSucceedsOnce | joinAD.py:192-239 | on success the cache has been emptied of the listed names, and SSSD was stopped and restarted once each |
| Host.SssdSucceeds | joinAD.py:199-239 | success implies a join whose SID lookup and section resolution succeeded, and leaves the id-mapped document beside the backup of the old configuration |
| Host.Machine.Reconfigure | joinAD.py:320-339 | the whole new state after the two transactions: exit status 0 exactly when both succeed, and the files, cache and command log the two specify, the Samba one only after the SSSD one succeeded |
| Host.LeaveKeepsConfiguration | joinAD.py:232-236 | leaving never exits 0: the Samba files stay as they were, an existing SSSD configuration survives, and only SSSD commands run |
| Host.JoinWritesBoth | joinAD.py:320-341 | exit status 0 means a join in which the directory answered, SSSD holds the id-mapped document and Samba the member document, each beside the backup of what was there |
| Host.JoinRunsThreeCommands | joinAD.py:320-341 | exit status 0 follows exactly one SSSD stop and one restart of each service |
| Host.SambaFailureKeepsSssd | joinAD.py:320-335 | when the SSSD transaction succeeds and the Samba one fails, the status is 1 yet SSSD keeps the id-mapped document; only Samba rolls back |
| Host.Machine.Run | joinAD.py:254-341 | a bad id-map token, or an already-joined domain, changes nothing (statuses 1 and 0); otherwise `realm join` or `realm leave` is the next command logged, a failure of it ends with status 1 and nothing else changed, and after it the state is the one `Host.Machine.Reconfigure` specifies |

## Left out

- The network: `kinit`, `klist` and the `ldap3` connection, bind and paged
  search. A search is modelled by its outcome, a `Directory.Reply` that is
  either a failure or the returned entries.
- External commands (`systemctl`, `realm`) are modelled by whether they
  raise. Their effects on the services are not modelled beyond the command
  log.
- ConfigObj's parsing and writing of the INI text. Documents are abstract
  values. Top-level scalar keys outside any section, nested subsections and
  type conversion of values on write are not modelled. Two sections may share
  a name in the model, which ConfigObj forbids. Lookups use the first section.
- Host.Machine.Write: a write either happens whole or not at all; a partially
  written file is not modelled.
- Host.Machine.PurgeCache: every cache entry is a removable file. A
  sub-directory, on which `os.remove` raises, is not modelled.
- Host.Machine.Run: the second `realm list` (joinAD.py:318), whose output is
  only logged, is not modelled. Neither are a failure of it or a failure of
  the first `realm list`.
- The logging setup and every log call; `argparse` parsing errors other than
  the id-map token; the re-execution under `sudo` (joinAD.py:281-282); and the
  password, which only reaches external commands.
- The principal built by `Cli.Upn` only reaches `kinit` and the directory
  binds, which are not modelled. It is specified on its own.
- Case mapping (`lower`, `upper`) and the whitespace of `split()` are ASCII
  only. Python applies Unicode rules.
- The module-global `useIdMap` is a parameter.

## Findings

| source | as written | input that shows it | evidently intended | confidence | as-written member | corrected member |
|---|---|---|---|---|---|---|
| joinAD.py:73-88 | the lower-cased `nCName` is compared with `dc=` components built from the domain as given, which keep its upper-case letters | domain `EXAMPLE.COM` with the entry `nCName = DC=EXAMPLE,DC=COM`, `nETBIOSName = EXAMPLE`: no entry matches, so the Samba workgroup becomes `''` | compare both sides lower-cased, so that the domain's own entry is found whatever the case of the argument | not executed | Directory.AsWrittenCounterexample | Directory.FindsOwnCrossReference |
