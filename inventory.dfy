/**
 A static Ansible inventory: a fixed table from hostname to a record of
 string-valued host variables, the exact-match lookup on it, and the full
 listing that walks a fixed enumeration of hostnames and keeps the ones the
 lookup knows.
 */
module HostInventory {

  /** The variables of one host, as the JSON object the inventory prints. */
  type HostVars = map<string, string>

  /** The full listing: `all.hosts` and `_meta.hostvars` of the inventory JSON. */
  datatype Inventory = Inventory(hosts: seq<string>, hostvars: map<string, HostVars>)

  /** The four keys every host record carries. */
  const CoreKeys: set<string> := {"ansible_host", "ansible_user", "repo_path", "environment"}

  /** The database keys, carried only by the first host. */
  const PostgresKeys: set<string> := {"postgres_user", "postgres_password", "postgres_db"}

  /** The host table, exactly as declared. */
  const Hosts: map<string, HostVars> := map[
    "portainer" := map[
      "ansible_host" := "192.168.68.124",
      "ansible_user" := "jimmy",
      "repo_path" := "/home/jimmy/home-server",
      "environment" := "production",
      "postgres_user" := "admin",
      "postgres_password" := "secure123",
      "postgres_db" := "maindb"
    ],
    "portainer2" := map[
      "ansible_host" := "192.168.68.126",
      "ansible_user" := "jimmy",
      "repo_path" := "/home/jimmy/home-server",
      "environment" := "production"
    ],
    "portainer3" := map[
      "ansible_host" := "192.168.68.182",
      "ansible_user" := "jimmy",
      "repo_path" := "/home/jimmy/home-server",
      "environment" := "production"
    ],
    "kuro" := map[
      "ansible_host" := "192.168.68.120",
      "ansible_user" := "jimmy",
      "repo_path" := "/home/jimmy/home-server",
      "environment" := "production"
    ],
    "maple" := map[
      "ansible_host" := "192.168.68.128",
      "ansible_user" := "one",
      "repo_path" := "/home/one/home-server",
      "environment" := "production"
    ]
  ]

  /** The enumeration the full listing walks, in declaration order. */
  const HostOrder: seq<string> := ["portainer", "portainer2", "portainer3", "kuro", "maple"]

  /** True when the five names are spelled exactly as in the table. */
  predicate IsKnownName(hostname: string) {
    hostname == "portainer" || hostname == "portainer2" || hostname == "portainer3"
    || hostname == "kuro" || hostname == "maple"
  }

  /** No element occurs twice. */
  predicate NoDuplicates(s: seq<string>) {
    forall i, j :: 0 <= i < j < |s| ==> s[i] != s[j]
  }

  /** `a` is `b` with some elements dropped, the rest kept in order. */
  predicate IsSubsequence(a: seq<string>, b: seq<string>)
    decreases |b|
  {
    if a == [] then true
    else if b == [] then false
    else (a[0] == b[0] && IsSubsequence(a[1..], b[1..])) || IsSubsequence(a, b[1..])
  }

  /**
   Record of one host, or the empty record when the name is not a key of the
   table. Matching is exact and case-sensitive.
   */
  function GetHostInventory(hostname: string): (r: HostVars)
    ensures r != map[] <==> IsKnownName(hostname)
    ensures r != map[] ==> CoreKeys <= r.Keys && r["environment"] == "production"
  {
    TableShape(hostname);
    if hostname in Hosts then Hosts[hostname] else map[]
  }

  /** What the declared table holds for a given name. */
  lemma TableShape(hostname: string)
    ensures hostname in Hosts <==> IsKnownName(hostname)
    ensures hostname in Hosts ==> CoreKeys <= Hosts[hostname].Keys
    ensures hostname in Hosts ==> Hosts[hostname]["environment"] == "production"
  {
    if hostname == "portainer" {
    } else if hostname == "portainer2" {
    } else if hostname == "portainer3" {
    } else if hostname == "kuro" {
    } else if hostname == "maple" {
    } else {
      assert hostname !in Hosts;
    }
  }

  /** The names of `names` whose lookup is non-empty, in their order. */
  function Filtered(names: seq<string>): (r: seq<string>)
    ensures |r| <= |names|
  {
    if names == [] then []
    else if GetHostInventory(names[0]) != map[] then [names[0]] + Filtered(names[1..])
    else Filtered(names[1..])
  }

  /** Filtering keeps exactly the enumerated names the table knows. */
  lemma {:induction false} FilteredMembers(names: seq<string>)
    ensures forall x :: x in Filtered(names) <==> x in names && IsKnownName(x)
  {
    if names != [] {
      FilteredMembers(names[1..]);
      assert forall x :: x in names <==> x == names[0] || x in names[1..];
    }
  }

  /** The listing the walk over `names` builds. */
  function Listing(names: seq<string>): (inv: Inventory)
    ensures forall h :: h in inv.hosts <==> h in names && IsKnownName(h)
    ensures IsSubsequence(inv.hosts, names)
  {
    FilteredMembers(names);
    FilteredIsSubsequence(names);
    var hosts := Filtered(names);
    Inventory(hosts, map h | h in hosts :: GetHostInventory(h))
  }

  /** Filtering one more name extends the result by that name, or not at all. */
  lemma {:induction false} FilteredSnoc(names: seq<string>, x: string)
    ensures Filtered(names + [x])
         == Filtered(names) + (if GetHostInventory(x) != map[] then [x] else [])
  {
    if names == [] {
      assert names + [x] == [x];
    } else {
      assert (names + [x])[0] == names[0];
      assert (names + [x])[1..] == names[1..] + [x];
      FilteredSnoc(names[1..], x);
    }
  }

  /** The kept names appear in the enumeration in the same relative order. */
  lemma {:induction false} FilteredIsSubsequence(names: seq<string>)
    ensures IsSubsequence(Filtered(names), names)
  {
    if names != [] {
      FilteredIsSubsequence(names[1..]);
      if GetHostInventory(names[0]) != map[] {
        assert ([names[0]] + Filtered(names[1..]))[1..] == Filtered(names[1..]);
      } else {
        SubsequenceOfTail(Filtered(names[1..]), names);
      }
    }
  }

  /** Dropping the first element of the longer sequence keeps a subsequence one. */
  lemma {:induction false} SubsequenceOfTail(a: seq<string>, b: seq<string>)
    requires b != [] && IsSubsequence(a, b[1..])
    ensures IsSubsequence(a, b)
  {
  }

  /** Filtering keeps a duplicate-free enumeration duplicate-free. */
  lemma {:induction false} FilteredNoDuplicates(names: seq<string>)
    requires NoDuplicates(names)
    ensures NoDuplicates(Filtered(names))
  {
    if names != [] {
      var tail := names[1..];
      assert NoDuplicates(tail) by {
        forall i, j | 0 <= i < j < |tail| ensures tail[i] != tail[j] {
          assert tail[i] == names[i + 1] && tail[j] == names[j + 1];
        }
      }
      FilteredNoDuplicates(tail);
      if GetHostInventory(names[0]) != map[] {
        var r := Filtered(names);
        var ft := Filtered(tail);
        assert names[0] !in tail by {
          forall j | 0 <= j < |tail| ensures tail[j] != names[0] {
            assert tail[j] == names[j + 1];
          }
        }
        FilteredMembers(tail);
        assert names[0] !in ft;
        assert r == [names[0]] + ft;
        forall i, j | 0 <= i < j < |r| ensures r[i] != r[j] {
          assert r[j] == ft[j - 1];
          if i > 0 {
            assert r[i] == ft[i - 1];
          } else {
            assert ft[j - 1] in ft;
          }
        }
      }
    }
  }

  /** When every enumerated name is a table key, filtering changes nothing. */
  lemma {:induction false} FilteredAllKnown(names: seq<string>)
    requires forall i :: 0 <= i < |names| ==> GetHostInventory(names[i]) != map[]
    ensures Filtered(names) == names
  {
    if names != [] {
      FilteredAllKnown(names[1..]);
      assert [names[0]] + names[1..] == names;
    }
  }

  /** The two structures of the listing agree, and every recorded value is the lookup. */
  lemma ListingConsistent(names: seq<string>, h: string)
    ensures h in Listing(names).hostvars <==> h in Listing(names).hosts
    ensures h in Listing(names).hostvars ==>
              Listing(names).hostvars[h] == GetHostInventory(h) && GetHostInventory(h) != map[]
    ensures h in Listing(names).hosts <==> h in names && IsKnownName(h)
  {
    FilteredMembers(names);
  }

  /** Every enumerated host has the four core keys and is a production host. */
  lemma KnownHostsAreProduction(h: string)
    requires h in HostOrder
    ensures CoreKeys <= GetHostInventory(h).Keys
    ensures GetHostInventory(h)["environment"] == "production"
  {
  }

  /** Only the first host carries database credentials, and it carries all three. */
  lemma OnlyPortainerHasDatabase(hostname: string, key: string)
    requires key in PostgresKeys
    ensures key in GetHostInventory(hostname) <==> hostname == "portainer"
  {
    if hostname == "portainer" {
    } else if hostname == "portainer2" {
    } else if hostname == "portainer3" {
    } else if hostname == "kuro" {
    } else if hostname == "maple" {
    } else {
      assert !IsKnownName(hostname);
    }
  }

  /** Lookup is exact: case variants and other near misses find nothing. */
  lemma LookupIsCaseSensitive()
    ensures GetHostInventory("Kuro") == map[]
    ensures GetHostInventory("PORTAINER") == map[]
    ensures GetHostInventory("maple ") == map[]
    ensures GetHostInventory("") == map[]
  {
  }

  /** The database credentials and the second user's host, as declared. */
  lemma DeclaredValues()
    ensures GetHostInventory("portainer")["postgres_db"] == "maindb"
    ensures GetHostInventory("portainer")["postgres_user"] == "admin"
    ensures GetHostInventory("maple")["ansible_host"] == "192.168.68.128"
    ensures GetHostInventory("maple")["ansible_user"] == "one"
    ensures GetHostInventory("maple")["repo_path"] == "/home/one/home-server"
  {
  }

  /** The enumeration names exactly the keys of the table, once each. */
  lemma EnumerationMatchesTable()
    ensures NoDuplicates(HostOrder)
    ensures forall h :: h in HostOrder <==> IsKnownName(h)
  {
  }

  /** Over an enumeration of table keys only, the listing keeps every name with its record. */
  lemma ListingOfKnownNames(names: seq<string>)
    requires forall i :: 0 <= i < |names| ==> GetHostInventory(names[i]) != map[]
    ensures Listing(names).hosts == names
    ensures forall h :: h in Listing(names).hostvars <==> h in names
    ensures forall h :: h in Listing(names).hostvars ==> Listing(names).hostvars[h] == GetHostInventory(h)
  {
    FilteredAllKnown(names);
  }

  /** The listing over the fixed enumeration holds every table entry, in declaration order. */
  lemma AllHostsListing()
    ensures Listing(HostOrder).hosts == HostOrder
    ensures forall h :: h in Listing(HostOrder).hostvars <==> IsKnownName(h)
    ensures forall h :: h in Listing(HostOrder).hostvars ==>
              Listing(HostOrder).hostvars[h] == GetHostInventory(h)
  {
    EnumerationMatchesTable();
    assert forall i :: 0 <= i < |HostOrder| ==> IsKnownName(HostOrder[i]);
    ListingOfKnownNames(HostOrder);
  }

  /**
   Walks `names` in order, appending a name to the host list and recording
   its variables only when the lookup is non-empty.
   */
  method CollectHosts(names: seq<string>) returns (inv: Inventory)
    ensures inv.hosts == Filtered(names)
    ensures forall h :: h in inv.hostvars <==> h in inv.hosts
    ensures forall h :: h in inv.hostvars ==> inv.hostvars[h] == GetHostInventory(h)
    ensures inv == Listing(names)
  {
    var hosts: seq<string> := [];
    var hostvars: map<string, HostVars> := map[];
    var i := 0;
    while i < |names|
      invariant 0 <= i <= |names|
      invariant hosts == Filtered(names[..i])
      invariant forall h :: h in hostvars <==> h in hosts
      invariant forall h :: h in hostvars ==> hostvars[h] == GetHostInventory(h)
    {
      var hostname := names[i];
      var vars := GetHostInventory(hostname);
      assert names[..i + 1] == names[..i] + [hostname];
      FilteredSnoc(names[..i], hostname);
      if vars != map[] {
        hosts := hosts + [hostname];
        hostvars := hostvars[hostname := vars];
      }
      i := i + 1;
    }
    assert names[..i] == names;
    inv := Inventory(hosts, hostvars);
    RecordedIsListing(hosts, hostvars);
  }

  /** A map keyed by exactly the listed names, holding their lookups, is the listing's map. */
  lemma RecordedIsListing(hosts: seq<string>, hostvars: map<string, HostVars>)
    requires forall h :: h in hostvars <==> h in hosts
    requires forall h :: h in hostvars ==> hostvars[h] == GetHostInventory(h)
    ensures hostvars == map h | h in hosts :: GetHostInventory(h)
  {
  }

  /**
   The full listing over the fixed enumeration: every host, in declaration
   order, once each, with its variables.
   */
  method GetAllHosts() returns (inv: Inventory)
    ensures inv == Listing(HostOrder)
    ensures inv.hosts == HostOrder && |inv.hosts| == 5 && NoDuplicates(inv.hosts)
    ensures forall h :: h in inv.hostvars <==> IsKnownName(h)
    ensures forall h :: h in inv.hostvars ==> inv.hostvars[h] == GetHostInventory(h)
  {
    inv := CollectHosts(HostOrder);
    EnumerationMatchesTable();
    AllHostsListing();
  }
}
