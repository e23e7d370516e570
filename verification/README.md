# Router rule-list builder and file uploader, modelled in Dafny

This project models the two scripts of a small router-configuration repository.

**The domain-list builder** (`dnsmasq_config_file_auto_construct.py`) is modelled in
`dnsmasq_config.dfy` and `rule_line.dfy`:
- It reads Clash rule lists: seven YAML files whose `payload` holds `DOMAIN,`,
  `DOMAIN-SUFFIX,` and `+.` entries, and three text lists whose lines are
  searched with a regular expression.
- It gathers their domains into one set.
- It removes every domain named on the direct list (`direct.txt`).
- It writes one dnsmasq directive `nftset=/<domain>/4#inet#fw4#china_ip_route`
  per remaining domain into `clash-core-bypass.conf`.
- It appends that file to the ad-blocking rules (`anti-ad.conf`), giving
  `anti-ad-bypass.conf`.

**The uploader** (`file_uploader.py`) is modelled in `file_uploader.dfy`:
- It validates a YAML configuration.
- It turns each router entry into SSH connection parameters: port 22 and user
  `admin` by default, and a password preferred to a key file.
- For each file mapping, it resolves every remote target, creates the target's
  parent directory with `mkdir -p`, and copies the file.
- A missing local file is skipped; a failed target is logged and the loop goes on.

Shared pieces:
- `py_str.dfy`: the Python `str` operations the scripts rely on (`strip`, `split`,
  `rstrip`, `replace`, `find`, iteration over a text file's lines).
- `posix_path.dfy`: `os.path.basename`, `dirname`, `join` and `expanduser` with
  POSIX semantics.
- `yaml.dfy`: the parsed YAML value.
- `wrappers.dfy`: `Option` and `Result`.

Files, the file system, SSH, SCP and remote commands are inputs of the model:
- file contents are maps from names to texts or parsed documents;
- the written files are returned as a map;
- file existence, connection outcome, remote exit status and copy outcome are
  function parameters.

The regular expression `-\s*['"]?(\+\.)?([a-zA-Z0-9.-]+)['"]?` under `re.search`
is modelled in two ways:
- as a relation, `RuleLine.IsParse`, which describes every way the pattern can
  match at a `-`;
- as a deterministic scan, `RuleLine.GreedyParse`, which skips whitespace, takes
  an optional quote and an optional `+.`, then the longest run of domain
  characters.

`RuleLine.MatchAtCorrect` and the `SearchFrom*` lemmas prove the two agree. They
also prove the scan returns group 2 of the leftmost match.

Behaviour of the code that the model keeps as written:
- **Missing inputs.** A missing input file or an unusable YAML document ends the
  builder's run. Python raises `FileNotFoundError`, `AttributeError` or
  `TypeError` there, and nothing catches it. `DnsmasqConfig.Run` returns the
  error and the files written up to that point.
- **Rule entries.** A `DOMAIN,` / `DOMAIN-SUFFIX,` entry yields the text between
  the first and the *second* comma, not everything after the first comma
  (`DnsmasqConfig.RuleEntryDomain`).
- **Comment lines on the direct list.** The direct list tests for `#` on the raw
  line, so an indented `#` line still removes a domain
  (`DnsmasqConfig.IndentedCommentFilters`). The text lists skip the same line
  (`DnsmasqConfig.IndentedCommentSkipped`).
- **Merge separator.** The merged file puts a single `"\n"` between the two
  texts. That is a blank line only when the ad-blocking text ends with a newline
  (`DnsmasqConfig.MergedLines`). A missing `anti-ad.conf` raises after the
  bypass file is written.
- **Missing credentials.** A router entry with neither `password` nor `key_file`
  does not stop the uploader. The error is caught inside
  `create_ssh_connection`, which returns no session
  (`FileUploader.MissingAuthCaught`).
- **Fetch timeout.** The downloads have no timeout.
- **Newlines in rule domains.** A rule entry such as `DOMAIN,a` followed by a
  newline and `b` yields the domain with its newline, and its directive is
  written over two lines or more (`DnsmasqConfig.NewlineDomainSplits`). The
  line-by-line properties of the bypass file hold for newline-free domains.
- **Backslashes in uploaded names.** A directory target has its backslashes
  turned into `/` after the local file's name is joined, so a local file named
  `a\b` lands as `b` inside a sub-directory `a`. A local path ending in `/` has
  an empty name, so the target is the directory itself and `mkdir -p` creates
  only its parent.

A worked example is proved for any two domains `a` and `b`. The payload is
`DOMAIN,a`, `DOMAIN-SUFFIX,b`, `IP-CIDR,10.0.0.0/8`:
- `DnsmasqConfig.ExamplePayloadDomains`: when `a` and `b` hold no comma, the
  payload yields exactly `{a, b}`.
- `DnsmasqConfig.ExampleBypass`: when `a` and `b` are distinct and hold no comma
  and no newline, an empty direct list gives a bypass file of exactly two lines,
  the directives for `a` and `b`.
- `DnsmasqConfig.ExampleDirectRemoves`: when `a` also has no newline, is
  non-empty, has no whitespace at either end and does not start with `#`, a
  direct list holding the line `a` leaves exactly `{b}`.

## Model

| member | source | states |
|---|---|---|
| `DnsmasqConfig.EntryDomain` | dnsmasq_config_file_auto_construct.py:40-47 | a payload entry yields a domain exactly when it is a string starting with `DOMAIN,`, `DOMAIN-SUFFIX,` or `+.`; non-strings and other prefixes yield nothing |
| `DnsmasqConfig.RuleEntryDomain` | dnsmasq_config_file_auto_construct.py:42-44 | a rule entry yields the text after its first comma up to the next comma or the end: comma-free, so `DOMAIN-SUFFIX,a.com,no-resolve` gives `a.com` |
| `DnsmasqConfig.WildcardEntryDomain` | dnsmasq_config_file_auto_construct.py:45-47 | a `+.` entry yields everything after the `+.` |
| `DnsmasqConfig.DomainRule` | dnsmasq_config_file_auto_construct.py:42-44 | `DOMAIN,<d>` with a comma-free `d` yields exactly `d` |
| `DnsmasqConfig.DomainSuffixRule` | dnsmasq_config_file_auto_construct.py:42-44 | `DOMAIN-SUFFIX,<d>` with a comma-free `d` yields exactly `d` |
| `DnsmasqConfig.AddressRuleIgnored` | dnsmasq_config_file_auto_construct.py:40-47 | every entry starting with `IP-CIDR,` yields nothing |
| `DnsmasqConfig.GatherMembers` | dnsmasq_config_file_auto_construct.py:40-47 | a domain is in the accumulated set exactly when some item yields it: duplicates collapse, nothing else enters |
| `DnsmasqConfig.CharsYieldNothing` | dnsmasq_config_file_auto_construct.py:39-41 | a payload that is a string is iterated character by character, and no single character yields a domain |
| `Yaml.Octets` | dnsmasq_config_file_auto_construct.py:40 | iterating a binary value visits its octets, in order, as integers |
| `DnsmasqConfig.OctetsYieldNothing` | dnsmasq_config_file_auto_construct.py:39-41 | a binary payload is iterated; its items are integers, so it yields nothing and the run goes on |
| `DnsmasqConfig.DocDomains` | dnsmasq_config_file_auto_construct.py:36-47 | a missing YAML file fails with `FileNotFound`, a document that is not a mapping fails with `NotAMapping`, and a document without `payload` yields nothing |
| `DnsmasqConfig.PayloadDomains` | dnsmasq_config_file_auto_construct.py:39-40 | a payload can be iterated exactly when it is a list, a string, a binary value or a mapping; anything else fails the run |
| `DnsmasqConfig.CollectFailure` | dnsmasq_config_file_auto_construct.py:36-38 | the file loop fails exactly when some file fails, and reports the error of a failing file |
| `DnsmasqConfig.CollectMembers` | dnsmasq_config_file_auto_construct.py:31-63 | a completed file loop holds exactly the domains some file contributes |
| `DnsmasqConfig.CollectStopsAtFailure` | dnsmasq_config_file_auto_construct.py:36-38 | once a file has raised, the remaining files change nothing |
| `DnsmasqConfig.AddEntries` | dnsmasq_config_file_auto_construct.py:40-47 | the entry loop adds to the set exactly the domains its entries yield |
| `DnsmasqConfig.AddKeys` | dnsmasq_config_file_auto_construct.py:40-47 | iterating a mapping payload adds exactly the domains its keys yield |
| `DnsmasqConfig.AddLines` | dnsmasq_config_file_auto_construct.py:53-61 | the line loop adds to the set exactly the domains its lines yield |
| `DnsmasqConfig.AddYamlFile` | dnsmasq_config_file_auto_construct.py:37-47 | one YAML file adds its payload's domains, or the run fails when the file is missing, is not a mapping, or its payload cannot be iterated |
| `DnsmasqConfig.AddYamlFiles` | dnsmasq_config_file_auto_construct.py:35-47 | the YAML loop computes the file-by-file accumulation, stopping at the first failure |
| `DnsmasqConfig.AddTxtFiles` | dnsmasq_config_file_auto_construct.py:50-61 | the text-file loop adds the text lists' domains to the set the YAML loop filled, or fails at the first missing file |
| `DnsmasqConfig.ExtractDomains` | dnsmasq_config_file_auto_construct.py:31-63 | `extract_domains` returns the YAML domains followed by the text-list domains in one set, or the first error |
| `DnsmasqConfig.ExtractMembers` | dnsmasq_config_file_auto_construct.py:31-63 | for any lists of YAML and text files, an extracted domain is exactly one that some YAML file or some text file contributes |
| `DnsmasqConfig.ExtractFailure` | dnsmasq_config_file_auto_construct.py:36-53 | extraction fails exactly when some YAML or text file fails; the error is that of the first failing YAML file, or, when every YAML file succeeds, that of the first failing text file |
| `DnsmasqConfig.ExamplePayloadDomains` | dnsmasq_config_file_auto_construct.py:40-47 | a payload `DOMAIN,a`, `DOMAIN-SUFFIX,b`, `IP-CIDR,…` yields exactly `{a, b}` |
| `RuleLine.SkipSpace` | dnsmasq_config_file_auto_construct.py:58 | `\s*` after the dash stops at the first non-whitespace character |
| `RuleLine.RunEnd` | dnsmasq_config_file_auto_construct.py:58 | `[a-zA-Z0-9.-]+` runs to the first character outside the class |
| `RuleLine.MatchAt` | dnsmasq_config_file_auto_construct.py:58-60 | a match at a dash yields a non-empty group 2 made only of domain characters |
| `RuleLine.ParseForced` | dnsmasq_config_file_auto_construct.py:58 | every way the pattern can match at a dash takes the same whitespace, quote and `+.` as the greedy scan, so backtracking cannot change group 2's start |
| `RuleLine.MatchAtCorrect` | dnsmasq_config_file_auto_construct.py:58-60 | the scan finds a match at a dash exactly when the pattern matches there, and returns the group 2 Python reports |
| `RuleLine.SearchFromNone` | dnsmasq_config_file_auto_construct.py:58-59 | the search finds nothing exactly when the pattern matches at no position |
| `RuleLine.SearchFrom` | dnsmasq_config_file_auto_construct.py:58-60 | whatever the search returns is a non-empty run of domain characters |
| `RuleLine.SearchFromSound` | dnsmasq_config_file_auto_construct.py:58-60 | a found domain is group 2 of the leftmost match |
| `RuleLine.SearchFromComplete` | dnsmasq_config_file_auto_construct.py:58-60 | the leftmost match's group 2 is what the search returns |
| `RuleLine.LineDomain` | dnsmasq_config_file_auto_construct.py:54-61 | a domain taken from a line is non-empty and holds only `[A-Za-z0-9.-]`, so a leading `+.` or quote is excluded |
| `RuleLine.LineDomainCorrect` | dnsmasq_config_file_auto_construct.py:55-61 | blank and `#` lines (after stripping) yield nothing; otherwise a line yields a domain exactly when the pattern matches, and that domain is the leftmost match's group 2 |
| `DnsmasqConfig.TxtDomains` | dnsmasq_config_file_auto_construct.py:50-61 | a text list fails the run exactly when its file is missing; every domain it contributes is a non-empty run of domain characters |
| `DnsmasqConfig.DirectDomains` | dnsmasq_config_file_auto_construct.py:68 | the direct set holds exactly the stripped lines that are non-blank and whose raw line does not start with `#` |
| `DnsmasqConfig.FilterDomains` | dnsmasq_config_file_auto_construct.py:66-69 | the result is exactly the extracted domains not on the direct list, by exact comparison |
| `DnsmasqConfig.OnSingleLine` | dnsmasq_config_file_auto_construct.py:68 | a one-line direct list names exactly its stripped text |
| `DnsmasqConfig.SingleDirectLine` | dnsmasq_config_file_auto_construct.py:66-69 | a direct list of one plain line removes exactly that domain |
| `DnsmasqConfig.EmptyDirectList` | dnsmasq_config_file_auto_construct.py:66-69 | an empty direct list removes nothing |
| `DnsmasqConfig.IndentedCommentSkipped` | dnsmasq_config_file_auto_construct.py:55-56 | a text-list line that is `#…` after stripping yields nothing |
| `DnsmasqConfig.IndentedCommentFilters` | dnsmasq_config_file_auto_construct.py:68 | on the direct list the same indented `#…` line is not a comment and removes the domain it spells |
| `DnsmasqConfig.ExampleDirectRemoves` | dnsmasq_config_file_auto_construct.py:66-69 | with `a` on the direct list, the example payload leaves exactly `{b}` |
| `DnsmasqConfig.Directive` | dnsmasq_config_file_auto_construct.py:75 | the directive for `d` reads back as `d`, so distinct domains give distinct lines |
| `DnsmasqConfig.BuildBypassConfig` | dnsmasq_config_file_auto_construct.py:72-75 | the bypass text is the directives of an enumeration of the set: every domain exactly once, in an unspecified order |
| `DnsmasqConfig.DirectiveIsOneLine` | dnsmasq_config_file_auto_construct.py:75 | a directive for a newline-free domain is exactly one line |
| `DnsmasqConfig.NewlineDomainSplits` | dnsmasq_config_file_auto_construct.py:75 | a `DOMAIN,` entry whose comma-free domain holds a newline yields that domain whole, and its directive reads back as two lines or more |
| `DnsmasqConfig.RenderLines` | dnsmasq_config_file_auto_construct.py:74-75 | when no domain contains a newline, the written text read back line by line is the directives in writing order, and it ends with a newline |
| `DnsmasqConfig.BypassLines` | dnsmasq_config_file_auto_construct.py:74-75 | when no filtered domain contains a newline, the bypass file has one line per filtered domain, and a line is in it exactly when it is the directive of a filtered domain |
| `DnsmasqConfig.ExampleBypass` | dnsmasq_config_file_auto_construct.py:72-75 | with an empty direct list, the example's bypass file is exactly the two directives, in either order |
| `DnsmasqConfig.MergeConfigs` | dnsmasq_config_file_auto_construct.py:86 | the merged text is the ad-blocking text, one `\n`, then the bypass text |
| `DnsmasqConfig.MergedLines` | dnsmasq_config_file_auto_construct.py:86 | when the ad-blocking text ends with a newline, the merged file's lines are its lines, one blank line, then the bypass file's lines |
| `DnsmasqConfig.WriteOutputs` | dnsmasq_config_file_auto_construct.py:72-86 | the bypass file renders the filtered set; the merged file is written only when the ad-blocking rules exist |
| `DnsmasqConfig.Run` | dnsmasq_config_file_auto_construct.py:90-95 | a run writes nothing when extraction or the direct list fails, writes the bypass file for exactly the filtered domains, and then writes the merged file or fails for the missing ad-blocking rules |
| `PyStr.Strip` | dnsmasq_config_file_auto_construct.py:55 | `strip()` returns the middle slice of the line with only whitespace removed on either side |
| `PyStr.StripEmpty` | dnsmasq_config_file_auto_construct.py:56 | a line strips to nothing exactly when it is all whitespace |
| `PyStr.StripIdempotent` | dnsmasq_config_file_auto_construct.py:55 | stripping twice changes nothing |
| `PyStr.Split` | dnsmasq_config_file_auto_construct.py:43 | `split(',')` gives comma-free pieces that join back to the text, at least two exactly when there is a comma |
| `PyStr.SplitFirst` | dnsmasq_config_file_auto_construct.py:43 | the first piece runs up to the first comma |
| `PyStr.SplitSecond` | dnsmasq_config_file_auto_construct.py:43 | the second piece runs from the first comma to the next comma or the end |
| `PyStr.ReadLinesConcat` | dnsmasq_config_file_auto_construct.py:53 | the lines of a text file concatenate back to the text |
| `PyStr.ReadLinesShape` | dnsmasq_config_file_auto_construct.py:53 | every line is non-empty, has a newline only at its end, and all lines but the last end with one |
| `PyStr.ReadLinesAppend` | dnsmasq_config_file_auto_construct.py:53 | reading two texts joined after a complete line gives the lines of each in turn |
| `PyStr.InnerNewlineSplits` | dnsmasq_config_file_auto_construct.py:53 | a text with a newline before its last character reads as two lines or more |
| `Yaml.Chars` | dnsmasq_config_file_auto_construct.py:40 | iterating a string visits its one-character strings in order |
| `FileUploader.LoadConfig` | file_uploader.py:15-26 | the validation loop computes the section-by-section check of `routers` then `file_mappings`, and a configuration that passes is returned unchanged |
| `FileUploader.Contains` | file_uploader.py:23 | `key in config` raises unless the configuration is a mapping, list or string; for a mapping it tests the keys, for a list its elements |
| `FileUploader.CheckSectionsMeaning` | file_uploader.py:21-26 | validation succeeds exactly when every required key is present; otherwise it reports the first key, in order, that is absent or cannot be looked up |
| `FileUploader.RoutersCheckedFirst` | file_uploader.py:21-24 | without `routers` the error names `routers`, whether or not `file_mappings` is there |
| `FileUploader.ConnectionPlan` | file_uploader.py:33-56 | only a router entry that is not a mapping (`TypeError`) or lacks `host` (`KeyError`) raises; a password login uses the password and disables agent and key search, a key login keeps them |
| `FileUploader.CreateSshConnection` | file_uploader.py:28-60 | a session is returned exactly when the planned connection succeeds, and it has the planned parameters; only a missing `host` (`KeyError`) or a router entry that is not a mapping (`TypeError`) escapes |
| `FileUploader.ConnectSuccessReturnsSession` | file_uploader.py:37-57 | a planned connection that succeeds returns its session |
| `FileUploader.DefaultsApply` | file_uploader.py:34-35 | the port defaults to 22 and the user to `admin` |
| `FileUploader.PasswordWins` | file_uploader.py:38-46 | with a password present, password authentication is used even if a key file is also given |
| `FileUploader.KeyFileExpanded` | file_uploader.py:47-54 | without a password, the key file is used after `~` expansion |
| `FileUploader.MissingAuthCaught` | file_uploader.py:55-60 | with neither credential the error is caught: no session, nothing raised |
| `FileUploader.ConnectFailureCaught` | file_uploader.py:58-60 | a failed connection gives no session and raises nothing |
| `PosixPath.Dirname` | file_uploader.py:64 | `dirname` is empty exactly when the path has no `/`, and is always a prefix of the path |
| `PosixPath.Basename` | file_uploader.py:87 | `basename` is the slash-free tail after the last `/` |
| `PosixPath.ExpandUser` | file_uploader.py:48 | a path not starting with `~` is unchanged; `~` or `~name` up to the first `/` becomes that user's home without trailing slashes, or `/` when that leaves nothing; an unknown home leaves the path unchanged |
| `PyStr.RStripChar` | file_uploader.py:64 | `rstrip('/')` removes exactly the trailing slashes |
| `PyStr.ReplaceChar` | file_uploader.py:88 | `replace('\\', '/')` changes exactly the backslashes |
| `PosixPath.Join` | file_uploader.py:88 | `join` gives the name alone when it is absolute, the two texts run together when the directory is empty or ends in `/`, and one `/` between them otherwise; the result ends with the name |
| `PosixPath.JoinIntoDir` | file_uploader.py:88 | a name without `/` joined to a directory ending in `/` is appended as it is |
| `FileUploader.RemoteDir` | file_uploader.py:64 | the directory to create is empty exactly when no `/` remains after trailing slashes are removed, and is a prefix of the path |
| `FileUploader.MkdirCommand` | file_uploader.py:64-68 | no command is issued exactly when the directory is empty; otherwise the command is `mkdir -p <dir>` |
| `FileUploader.EnsureRemotePathExists` | file_uploader.py:62-71 | it fails exactly when a command is issued and exits nonzero, and reports that directory |
| `FileUploader.ResolveRemote` | file_uploader.py:86-90 | a target ending in `/` becomes that directory plus the local basename, with backslashes turned into `/`; any other target is used as it is |
| `FileUploader.ResolveIntoDir` | file_uploader.py:86-88 | without backslashes, a directory target is the directory followed by the local basename |
| `FileUploader.KeepsFileName` | file_uploader.py:86-88 | an upload into a directory keeps the local file's name when that name has no backslash |
| `FileUploader.RemoteDirOfName` | file_uploader.py:64 | the directory created for a name inside a directory is that directory |
| `FileUploader.MkdirMakesTargetDir` | file_uploader.py:86-92 | when the target directory has no backslash and the local file's name is non-empty and has no backslash, an upload into that directory first creates that very directory |
| `FileUploader.TargetStep` | file_uploader.py:84-96 | a target is uploaded exactly when it is a string, its directory exists or is created, and the copy succeeds; the copy is attempted only after the directory step succeeds; every failure is recorded for that target |
| `FileUploader.RemoteList` | file_uploader.py:83 | `for remote_path in remote_paths` works exactly on a list, a string, a binary value or an empty mapping; a string visits one item per character and a binary value only non-strings |
| `FileUploader.MappingSteps` | file_uploader.py:76-96 | a mapping that is not a dict, or lacks `local_path` or `remote_paths`, raises the matching error; a missing local file gives a single skip; otherwise one step per remote target |
| `FileUploader.MissingLocalSkipped` | file_uploader.py:79-81 | a mapping whose local file is missing yields one skip and attempts no target |
| `FileUploader.EveryTargetAttempted` | file_uploader.py:83-96 | every target of an existing file is attempted, in order, whatever happened to the earlier ones |
| `FileUploader.UploadCompletes` | file_uploader.py:73-96 | when no mapping raises, every mapping's steps are taken in order and nothing escapes |
| `FileUploader.UploadStopsAtFirstError` | file_uploader.py:75-77 | the first mapping that raises ends the loop: earlier steps are kept and its error escapes |
| `FileUploader.UploadMapping` | file_uploader.py:76-96 | one mapping's lookups, skip test and target loop give its specified steps |
| `FileUploader.UploadTargets` | file_uploader.py:83-96 | the inner loop takes one step per target, in order |
| `FileUploader.UploadAll` | file_uploader.py:75-96 | the outer loop accumulates the mappings' steps and stops at the first raised error |
| `FileUploader.UploadFiles` | file_uploader.py:73-96 | `upload_files` iterates a list, string or binary value of mappings; a non-empty mapping or a value that cannot be iterated raises before any upload |

## Left out

- The downloads (`download_files`) and the final status messages: network and console I/O.
- The YAML parser: documents arrive parsed as `Yaml.Value`. Floats and timestamps are one `Scalar` case, binary values are `Bytes`, and mapping keys are strings.
- Text decoding and newline translation when files are opened: a text is the decoded string.
- `\s` and `str.strip()` on non-ASCII whitespace: only the ASCII part of Python's whitespace set is modelled.
- The iteration order of the domain set: `DnsmasqConfig.BuildBypassConfig` fixes no order, and the bypass file's properties are stated over its set of lines.
- Paramiko and SCP themselves: the connection, the transport, `exec_command`, `scp.put` and `close`. Their outcomes are parameters; the text of stderr in a failed `mkdir` is not kept.
- The upload script's `main`: the per-router loop around `create_ssh_connection` and `upload_files`, the transport check, logging and argument parsing. It only sequences foreign calls and logs.
- Shell quoting of the `mkdir -p` command: the command is a string, and what the remote shell makes of spaces in it is not modelled.
- `FileUploader.MappingSteps`: a non-empty mapping given as `remote_paths` is reported as `UnorderedKeys`, because a `Yaml.Value` mapping keeps no key order. Python would visit its keys in insertion order.
- `FileUploader.MappingSteps`: a `local_path` that is an integer or a boolean is reported as `TypeError`. Python's `os.path.exists` would treat it as a file descriptor.
- File existence and home directories are parameters: `os.path.exists` and the password database are not modelled.
- `FileUploader.MappingSteps`: a `local_path` given as a YAML binary value is reported as `TypeError`. Python would pass the bytes to `os.path.exists`, `basename` and `scp.put`, so the model does not capture uploads named by a bytes path.
- `FileUploader.ConnectionPlan`: a `key_file` given as a YAML binary value gives no session. Python would expand it as bytes and hand it to paramiko, whose handling of it is not modelled.
- `PyStr.ReadLines` carries no contract of its own: its meaning is stated by `PyStr.ReadLinesConcat` and `PyStr.ReadLinesShape`, which together determine its result.
