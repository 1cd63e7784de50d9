/**
 The decision the inventory's command line takes once its arguments are
 parsed: `--list`, then `--host NAME`, then a positional `NAME`, then help,
 in that strict priority. Printing and exiting are represented by the
 outcome value.
 */
module Cli {
  import opened HostInventory

  datatype Option<T> = None | Some(value: T)

  /** The parsed command line: the `--list` flag, `--host` and the positional name. */
  datatype Args = Args(list: bool, host: Option<string>, hostname: Option<string>)

  /** A JSON document the program prints on standard output. */
  datatype Document = AllHosts(inventory: Inventory) | HostDoc(vars: HostVars)

  /**
   Where the program writes, and what. `Help` is the usage text, which the
   argument parser prints on standard output.
   */
  datatype Output = Stdout(doc: Document) | Stderr(line: string) | Help

  /** What one invocation produces: its output and its process exit code. */
  datatype Outcome = Outcome(output: Output, exitCode: nat)

  /** Whether an optional string argument is truthy: present and non-empty. */
  predicate Given(arg: Option<string>) {
    arg.Some? && arg.value != ""
  }

  /** The diagnostic written for an unknown positional name. */
  function NotFoundLine(hostname: string): (line: string)
    ensures |line| == |hostname| + 17
    ensures line[..6] == "Host '" && line[6..6 + |hostname|] == hostname
    ensures line[6 + |hostname|..] == "' not found"
  {
    "Host '" + hostname + "' not found"
  }

  /** The outcome of one invocation with already-parsed arguments. */
  function Dispatch(args: Args): (o: Outcome)
    ensures o.exitCode == 0 <==> o.output.Stdout?
    ensures o.exitCode == 0 || o.exitCode == 1
    ensures o.output.Help? <==> !args.list && !Given(args.host) && !Given(args.hostname)
    ensures o.output.Stderr? <==>
              !args.list && !Given(args.host) && Given(args.hostname)
              && GetHostInventory(args.hostname.value) == map[]
  {
    if args.list then
      Outcome(Stdout(AllHosts(Listing(HostOrder))), 0)
    else if Given(args.host) then
      Outcome(Stdout(HostDoc(GetHostInventory(args.host.value))), 0)
    else if Given(args.hostname) then
      var hostData := GetHostInventory(args.hostname.value);
      if hostData != map[] then Outcome(Stdout(HostDoc(hostData)), 0)
      else Outcome(Stderr(NotFoundLine(args.hostname.value)), 1)
    else
      Outcome(Help, 1)
  }

  /** `--list` wins over everything else on the command line. */
  lemma ListWins(args: Args)
    requires args.list
    ensures Dispatch(args) == Dispatch(Args(true, None, None))
    ensures Dispatch(args).output == Stdout(AllHosts(Listing(HostOrder)))
    ensures Dispatch(args).exitCode == 0
  {
  }

  /** Without `--list`, a non-empty `--host` wins over the positional name. */
  lemma HostWinsOverHostname(name: string, positional: Option<string>)
    requires name != ""
    ensures Dispatch(Args(false, Some(name), positional)) == Dispatch(Args(false, Some(name), None))
  {
  }

  /** An empty `--host` or positional name counts as absent. */
  lemma EmptyArgumentIsAbsent(list: bool, host: Option<string>, hostname: Option<string>)
    ensures Dispatch(Args(list, Some(""), hostname)) == Dispatch(Args(list, None, hostname))
    ensures Dispatch(Args(list, host, Some(""))) == Dispatch(Args(list, host, None))
  {
  }

  /** With nothing recognised on the command line, help and exit code 1. */
  lemma NothingGivenIsHelp()
    ensures Dispatch(Args(false, None, None)) == Outcome(Help, 1)
  {
  }

  /**
   An unknown name is not an error for `--host` (an empty object, exit 0)
   but is one for the positional name (a line on standard error, exit 1).
   */
  lemma UnknownNameAsymmetry(name: string)
    requires name != "" && !IsKnownName(name)
    ensures Dispatch(Args(false, Some(name), None)) == Outcome(Stdout(HostDoc(map[])), 0)
    ensures Dispatch(Args(false, None, Some(name))) == Outcome(Stderr(NotFoundLine(name)), 1)
  {
  }

  /** For a known name both single-host modes print its record and exit 0. */
  lemma KnownNameModesAgree(name: string)
    requires IsKnownName(name)
    ensures Dispatch(Args(false, Some(name), None)) == Dispatch(Args(false, None, Some(name)))
    ensures Dispatch(Args(false, None, Some(name))) == Outcome(Stdout(HostDoc(GetHostInventory(name))), 0)
  {
  }

  /** `--list` shows the second user's host with its address and account. */
  lemma ListScenario()
    ensures Dispatch(Args(true, None, None)) == Outcome(Stdout(AllHosts(Listing(HostOrder))), 0)
    ensures "maple" in Listing(HostOrder).hostvars
    ensures Listing(HostOrder).hostvars["maple"]["ansible_host"] == "192.168.68.128"
    ensures Listing(HostOrder).hostvars["maple"]["ansible_user"] == "one"
  {
    AllHostsListing();
    assert IsKnownName("maple");
    DeclaredValues();
  }

  /** `--host portainer` prints the first host's record, which names the database. */
  lemma HostScenario()
    ensures Dispatch(Args(false, Some("portainer"), None))
            == Outcome(Stdout(HostDoc(GetHostInventory("portainer"))), 0)
    ensures GetHostInventory("portainer")["postgres_db"] == "maindb"
  {
    DeclaredValues();
  }

  /** A positional unknown name is reported on standard error with exit code 1. */
  lemma UnknownPositionalScenario()
    ensures Dispatch(Args(false, None, Some("doesnotexist")))
            == Outcome(Stderr("Host 'doesnotexist' not found"), 1)
  {
    assert !IsKnownName("doesnotexist");
    UnknownNameAsymmetry("doesnotexist");
    DoesNotExistLine();
  }

  /** The diagnostic for `doesnotexist`, spelled out. */
  lemma DoesNotExistLine()
    ensures NotFoundLine("doesnotexist") == "Host 'doesnotexist' not found"
  {
  }

  /** A positional known name prints its production record with exit code 0. */
  lemma KnownPositionalScenario()
    ensures Dispatch(Args(false, None, Some("kuro")))
            == Outcome(Stdout(HostDoc(GetHostInventory("kuro"))), 0)
    ensures GetHostInventory("kuro")["environment"] == "production"
  {
    assert IsKnownName("kuro");
  }
}
