# Static Ansible inventory, modelled in Dafny

The program is a dynamic-inventory source for Ansible with its hosts written
into the code. It holds a fixed table of five hosts (`portainer`,
`portainer2`, `portainer3`, `kuro`, `maple`). Each host maps to a record of
string variables: address, login user, repository path, environment and, for
`portainer` only, database credentials. The program answers three queries:

- a lookup of one host by its exact, case-sensitive name, which gives the
  empty record for an unknown name;
- the full listing, which walks a fixed enumeration of host names in order.
  A name goes into `all.hosts`, with its record in `_meta.hostvars`, only
  when its lookup is non-empty;
- the command-line decision: `--list`, else a non-empty `--host NAME`, else a
  non-empty positional `NAME`, else help. Each branch ends with exit code 0
  (JSON printed) or 1 (error line or help).

Two modules, one per component:

- `HostInventory` (`inventory.dfy`) holds the table as a constant map and the
  lookup as a total function. The listing loop is the method `CollectHosts`.
  It is proved against the specification functions `Filtered` (the
  enumeration filtered by "lookup is non-empty") and `Listing`. `GetAllHosts`
  runs that loop over the fixed enumeration. A name counts as known exactly
  when it is one of the five table keys. The lemmas cover filtering:
  membership, order (subsequence), no duplicates, and that names the table
  knows all survive. They also cover the listing (its two parts agree) and
  the declared values in the table.
- `Cli` (`cli.dfy`) gives the decision as the pure function `Dispatch`. It
  maps the already-parsed arguments to an `Outcome`: standard-output JSON
  value, standard-error line, or help, plus the exit code. Python
  truthiness is modelled as `Given`: a missing argument and an empty string
  both count as absent. The lemmas state the priority order, the
  asymmetry for unknown names between `--host` and the positional name, and
  a few example invocations.

## Model

| member | source | states |
|---|---|---|
| `HostInventory.GetHostInventory` | infra/ansible/simple_inventory.py:7-49 | the record is non-empty exactly when the name is one of the five keys, spelled exactly; a non-empty record has the four core keys and environment "production" |
| `HostInventory.TableShape` | infra/ansible/simple_inventory.py:13-47 | the table's keys are exactly the five names; every record has `ansible_host`, `ansible_user`, `repo_path`, `environment`, and `environment` is "production" |
| `HostInventory.OnlyPortainerHasDatabase` | infra/ansible/simple_inventory.py:14-22 | each of `postgres_user`, `postgres_password`, `postgres_db` is in a lookup result if and only if the name is `portainer` |
| `HostInventory.LookupIsCaseSensitive` | infra/ansible/simple_inventory.py:49 | case variants (`Kuro`, `PORTAINER`), a name with a trailing space and the empty string all give the empty record |
| `HostInventory.DeclaredValues` | infra/ansible/simple_inventory.py:14-46 | `portainer` has `postgres_db` "maindb" and `postgres_user` "admin"; `maple` has host "192.168.68.128", user "one" and its own repository path |
| `HostInventory.KnownHostsAreProduction` | infra/ansible/simple_inventory.py:13-47 | every enumerated host's record carries the four core keys and environment "production" |
| `HostInventory.Filtered` | infra/ansible/simple_inventory.py:62-65 | the host list the loop builds, the enumeration kept where the lookup is non-empty, is never longer than the enumeration |
| `HostInventory.Listing` | infra/ansible/simple_inventory.py:55-68 | the listing `Dispatch` prints for `--list`: `all.hosts` holds exactly the enumerated names the table knows, in enumeration order (a subsequence of the enumeration) |
| `HostInventory.FilteredMembers` | infra/ansible/simple_inventory.py:62-65 | a name is in the listed hosts if and only if it is in the enumeration and the table knows it |
| `HostInventory.FilteredSnoc` | infra/ansible/simple_inventory.py:62-65 | handling one more enumerated name appends that name if its lookup is non-empty and leaves the list unchanged otherwise |
| `HostInventory.FilteredIsSubsequence` | infra/ansible/simple_inventory.py:60-65 | the listed hosts are a subsequence of the enumeration, so declaration order is kept |
| `HostInventory.FilteredNoDuplicates` | infra/ansible/simple_inventory.py:60-65 | a duplicate-free enumeration gives a duplicate-free host list |
| `HostInventory.FilteredAllKnown` | infra/ansible/simple_inventory.py:60-66 | when every enumerated name is a table key, the host list equals the enumeration |
| `HostInventory.ListingConsistent` | infra/ansible/simple_inventory.py:62-66 | a name is a key of `_meta.hostvars` exactly when it is in `all.hosts`, exactly when it is enumerated and known; every recorded value is the non-empty lookup of its name |
| `HostInventory.EnumerationMatchesTable` | infra/ansible/simple_inventory.py:13-60 | the enumeration has no duplicates and names exactly the five table keys |
| `HostInventory.ListingOfKnownNames` | infra/ansible/simple_inventory.py:60-66 | over an enumeration of known names only, the listing keeps every name in order, and its map keys are exactly those names, each with its lookup |
| `HostInventory.AllHostsListing` | infra/ansible/simple_inventory.py:55-68 | the listing over the fixed enumeration has the five hosts in declaration order; its map keys are the five known names, each with its lookup |
| `HostInventory.CollectHosts` | infra/ansible/simple_inventory.py:55-68 | the loop's host list is the enumeration filtered by "lookup is non-empty", in order; the map's keys are exactly the listed names, each with its lookup; the result is the `Listing` of the enumeration |
| `HostInventory.GetAllHosts` | infra/ansible/simple_inventory.py:51-68 | the full listing lists the enumeration itself: five hosts, no duplicates, in declaration order; its map keys are exactly the known names, each with its lookup |
| `Cli.NotFoundLine` | infra/ansible/simple_inventory.py:87 | the diagnostic is `Host '`, then the name itself, then `' not found`: 17 characters longer than the name |
| `Cli.DoesNotExistLine` | infra/ansible/simple_inventory.py:87 | the diagnostic for `doesnotexist` is exactly `Host 'doesnotexist' not found` |
| `Cli.Dispatch` | infra/ansible/simple_inventory.py:78-91 | exit code 0 exactly when JSON goes to standard output, else 1; help exactly when no mode is given; a standard-error line exactly for an unknown positional name when neither `--list` nor `--host` is given |
| `Cli.ListWins` | infra/ansible/simple_inventory.py:78-79 | with `--list`, the other arguments do not matter: the full listing is printed with exit code 0 |
| `Cli.HostWinsOverHostname` | infra/ansible/simple_inventory.py:80-82 | without `--list`, a non-empty `--host` makes the positional name irrelevant |
| `Cli.EmptyArgumentIsAbsent` | infra/ansible/simple_inventory.py:80-82 | an empty `--host` or an empty positional name behaves as if it were not given |
| `Cli.NothingGivenIsHelp` | infra/ansible/simple_inventory.py:89-91 | with no mode the outcome is help with exit code 1 |
| `Cli.UnknownNameAsymmetry` | infra/ansible/simple_inventory.py:80-88 | for an unknown non-empty name, `--host` prints the empty object with exit code 0, and the positional form writes `Host '<name>' not found` to standard error with exit code 1 |
| `Cli.KnownNameModesAgree` | infra/ansible/simple_inventory.py:80-85 | for a known name, `--host` and the positional form give the same outcome: its record on standard output, exit code 0 |
| `Cli.ListScenario` | infra/ansible/simple_inventory.py:78-79 | `--list` prints the listing, and in it `maple` has `ansible_host` "192.168.68.128" and `ansible_user` "one" |
| `Cli.HostScenario` | infra/ansible/simple_inventory.py:80-81 | `--host portainer` prints `portainer`'s record with exit code 0, and that record has `postgres_db` "maindb" |
| `Cli.UnknownPositionalScenario` | infra/ansible/simple_inventory.py:82-88 | positional `doesnotexist` writes `Host 'doesnotexist' not found` to standard error with exit code 1 |
| `Cli.KnownPositionalScenario` | infra/ansible/simple_inventory.py:82-85 | positional `kuro` prints its record, whose environment is "production", with exit code 0 |

## Left out

- Argument parsing and the help text (infra/ansible/simple_inventory.py:71-76, 90) are done by a library. `Dispatch` takes the parsed arguments, and help is the abstract outcome `Help`, which names no stream; the help text goes to standard output.
- The parser also ends the process by itself: on `-h`/`--help` with exit code 0, and on usage errors such as `--host` without a value with exit code 2. Those exits are not modelled, so help with exit code 1 covers only the fallback of lines 89-91.
- JSON serialisation with two-space indentation (lines 79, 81, 85) is library formatting. The model returns the value that would be serialised, not the text. Dafny maps have no order, so the key order of the printed objects (declaration order for records, enumeration order for `_meta.hostvars`) is not captured. The order of `all.hosts` is captured.
- `print`, `sys.stderr` and `sys.exit` (lines 79-91) are process I/O. They are the fields of `Outcome`: the stream, the message, and the exit code. Normal termination is exit code 0. The standard-error line is modelled without the newline that `print` adds.
- The `__main__` guard (lines 93-94) is plumbing.
- The source builds the host table afresh inside every lookup call. The model uses one constant map. Nothing ever changes the table, so this is not observable.
