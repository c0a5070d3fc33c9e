/**
 * The packages page's server data: each featured group becomes a category whose packages are
 * looked up in the registry by name, with `sv` add-ons shown under their alias.
 */
module PackagesPage {
  import opened Wrappers
  import opened Text
  import opened PackagesMeta

  /**
   * A registry entry: the fields the page sets or deletes, and the rest of the entry, which the
   * page copies unchanged.
   */
  datatype Package = Package(
    name: string, svAlias: Option<string>, homepage: Option<string>, repoUrl: Option<string>,
    other: map<string, string>)

  datatype Category = Category(title: string, hash: string, description: Option<string>, packages: seq<Package>)

  /** `registry.find((pkg) => pkg.name === name)`. */
  function FindPackage(registry: seq<Package>, name: string): Option<Package>
    decreases |registry|
  {
    if registry == [] then None
    else if registry[0].name == name then Some(registry[0])
    else FindPackage(registry[1..], name)
  }

  /** The lookup finds nothing exactly when no entry has the name, and otherwise the first entry with it. */
  lemma {:induction false} FindPackageFirst(registry: seq<Package>, name: string)
    ensures FindPackage(registry, name).None? <==> forall i :: 0 <= i < |registry| ==> registry[i].name != name
    ensures FindPackage(registry, name).Some? ==> exists i :: (0 <= i < |registry| && registry[i] == FindPackage(registry, name).value
      && registry[i].name == name && forall j :: 0 <= j < i ==> registry[j].name != name)
    decreases |registry|
  {
    if registry != [] && registry[0].name != name {
      var r := FindPackage(registry[1..], name);
      FindPackageFirst(registry[1..], name);
      assert forall i :: 1 <= i < |registry| ==> registry[i] == registry[1..][i - 1];
      if r.Some? {
        var i :| 0 <= i < |registry[1..]| && registry[1..][i] == r.value && registry[1..][i].name == name
          && forall j :: 0 <= j < i ==> registry[1..][j].name != name;
        assert registry[i + 1] == r.value && forall j :: 0 <= j < i + 1 ==> registry[j].name != name;
      }
    } else if registry != [] {
      assert registry[0] == FindPackage(registry, name).value;
    }
  }

  /** The copy shown for an `sv` add-on: named by its alias, linked to its CLI page, without a repository. */
  function Aliased(pkg: Package, alias: string): (r: Package)
    ensures r.name == alias && r.svAlias == Some(alias) && r.homepage == Some("/docs/cli/" + alias)
    ensures r.repoUrl.None? && r.other == pkg.other
  {
    pkg.(svAlias := Some(alias), name := alias, homepage := Some("/docs/cli/" + alias), repoUrl := None)
  }

  /** One definition's entry on the page: the registry entry, aliased when the definition has an alias. */
  function Resolve(def: Definition, registry: seq<Package>): (r: Option<Package>)
    ensures r.None? <==> FindPackage(registry, def.name).None?
    ensures r.Some? && !(def.svAlias.Some? && def.svAlias.value != "") ==> r == FindPackage(registry, def.name)
    ensures r.Some? && def.svAlias.Some? && def.svAlias.value != "" ==>
      r.value == Aliased(FindPackage(registry, def.name).value, def.svAlias.value)
  {
    match FindPackage(registry, def.name)
    case None => None
    case Some(found) =>
      if def.svAlias.Some? && def.svAlias.value != "" then Some(Aliased(found, def.svAlias.value)) else Some(found)
  }

  /** What one definition contributes to the page: its resolved entry, or nothing. */
  function Resolved(def: Definition, registry: seq<Package>): (r: seq<Package>)
    ensures |r| <= 1
  {
    match Resolve(def, registry) case None => [] case Some(p) => [p]
  }

  /** `arrToPackages`: the resolved definitions, in order, without the ones missing from the registry. */
  function ArrToPackages(defs: seq<Definition>, registry: seq<Package>): (r: seq<Package>)
    ensures |r| <= |defs|
    decreases |defs|
  {
    if defs == [] then [] else Resolved(defs[0], registry) + ArrToPackages(defs[1..], registry)
  }

  /** The definitions are processed independently and in order. */
  lemma {:induction false} ArrToPackagesAppend(a: seq<Definition>, b: seq<Definition>, registry: seq<Package>)
    ensures ArrToPackages(a + b, registry) == ArrToPackages(a, registry) + ArrToPackages(b, registry)
    decreases |a|
  {
    if a == [] {
      assert a + b == b;
    } else {
      var head := Resolved(a[0], registry);
      assert (a + b)[0] == a[0] && (a + b)[1..] == a[1..] + b;
      ArrToPackagesAppend(a[1..], b, registry);
      assert ArrToPackages(a + b, registry) == head + ArrToPackages(a[1..] + b, registry);
      assert ArrToPackages(a, registry) == head + ArrToPackages(a[1..], registry);
    }
  }

  /** A single definition yields its resolved entry, or nothing when the registry lacks its name. */
  lemma ArrToPackagesOne(def: Definition, registry: seq<Package>)
    ensures Resolve(def, registry).None? ==> ArrToPackages([def], registry) == []
    ensures Resolve(def, registry).Some? ==> ArrToPackages([def], registry) == [Resolve(def, registry).value]
  {
    assert [def][1..] == [];
  }

  /** Every entry on the page comes from the registry, under its own name or its definition's alias. */
  lemma {:induction false} ArrToPackagesFromRegistry(defs: seq<Definition>, registry: seq<Package>, k: nat)
    requires k < |ArrToPackages(defs, registry)|
    ensures exists i :: 0 <= i < |defs| && Resolve(defs[i], registry) == Some(ArrToPackages(defs, registry)[k])
    decreases |defs|
  {
    var r := ArrToPackages(defs, registry);
    var rest := ArrToPackages(defs[1..], registry);
    var head := Resolved(defs[0], registry);
    assert r == head + rest;
    if k < |head| {
      assert Resolve(defs[0], registry) == Some(r[k]);
    } else {
      assert r[k] == rest[k - |head|];
      ArrToPackagesFromRegistry(defs[1..], registry, k - |head|);
      var i :| 0 <= i < |defs[1..]| && Resolve(defs[1..][i], registry) == Some(rest[k - |head|]);
      assert defs[i + 1] == defs[1..][i];
    }
  }

  /** When every definition is in the registry, nothing is dropped and entry `i` is definition `i`'s. */
  lemma {:induction false} ArrToPackagesAllFound(defs: seq<Definition>, registry: seq<Package>)
    requires forall i :: 0 <= i < |defs| ==> FindPackage(registry, defs[i].name).Some?
    ensures |ArrToPackages(defs, registry)| == |defs|
    ensures forall i :: 0 <= i < |defs| ==> Some(ArrToPackages(defs, registry)[i]) == Resolve(defs[i], registry)
    decreases |defs|
  {
    if defs != [] {
      assert forall i :: 1 <= i < |defs| ==> defs[1..][i - 1] == defs[i];
      ArrToPackagesAllFound(defs[1..], registry);
      var r := ArrToPackages(defs, registry);
      assert r == [Resolve(defs[0], registry).value] + ArrToPackages(defs[1..], registry);
      forall i | 1 <= i < |defs| ensures Some(r[i]) == Resolve(defs[i], registry) {
        assert r[i] == ArrToPackages(defs[1..], registry)[i - 1];
      }
    }
  }

  /** `title.toLowerCase().replace(/ /g, '-')`. */
  function Hash(title: string): (r: string)
    ensures |r| == |title|
    ensures forall i :: 0 <= i < |title| ==> r[i] != ' ' && !('A' <= r[i] <= 'Z')
    ensures forall i :: 0 <= i < |title| ==> (r[i] == '-' <==> title[i] == ' ' || title[i] == '-')
    ensures forall i :: 0 <= i < |title| ==> r[i] == (if title[i] == ' ' then '-' else ToLowerChar(title[i]))
  {
    var r := ReplaceChar(ToLower(title), ' ', '-');
    assert forall i :: 0 <= i < |title| ==> ToLower(title)[i] == ToLowerChar(title[i]);
    r
  }

  /** A hash is the same for titles that differ only in letter case. */
  lemma HashIgnoresCase(a: string, b: string)
    requires ToLower(a) == ToLower(b)
    ensures Hash(a) == Hash(b)
  {
  }

  /** The category of one featured group. */
  function CategoryOf(group: FeaturedGroup, registry: seq<Package>): Category {
    Category(group.title, Hash(group.title), group.description, ArrToPackages(group.packages, registry))
  }

  /** The `homepage` list: the loop pushing one category per featured group. */
  method Homepage(featured: seq<FeaturedGroup>, registry: seq<Package>) returns (homepage: seq<Category>)
    ensures |homepage| == |featured|
    ensures forall i :: 0 <= i < |featured| ==> homepage[i] == CategoryOf(featured[i], registry)
  {
    homepage := [];
    for i := 0 to |featured|
      invariant |homepage| == i
      invariant forall j :: 0 <= j < i ==> homepage[j] == CategoryOf(featured[j], registry)
    {
      var group := featured[i];
      homepage := homepage + [Category(group.title, Hash(group.title), group.description, ArrToPackages(group.packages, registry))];
    }
  }
}
