/**
 * The type-name cache: a dictionary from full type name to type, filled from
 * the types extracted from the application's assemblies, and a lookup that
 * returns the type of the first name in a sequence that has an entry.
 */
module AssemblySources {
  import opened Wrappers

  /** A System.Type as far as the cache sees it; `id` tells apart types that share a name. */
  datatype TypeInfo = TypeInfo(fullName: string, id: nat)

  /**
   * FindTypeByNames: null names give null; otherwise the cached type of the
   * earliest name that has a cache entry, or null when none has one.
   */
  function FindTypeByNames(names: Option<seq<string>>, cache: map<string, TypeInfo>): (r: Option<TypeInfo>)
    decreases if names.Some? then |names.value| else 0
    ensures names.None? ==> r == None
    ensures names.Some? ==> (r == None <==> forall i :: 0 <= i < |names.value| ==> names.value[i] !in cache)
    ensures r.Some? ==> names.Some? && exists i ::
      && 0 <= i < |names.value|
      && names.value[i] in cache
      && cache[names.value[i]] == r.value
      && forall j :: 0 <= j < i ==> names.value[j] !in cache
  {
    match names
    case None => None
    case Some(ns) =>
      if ns == [] then None
      else if ns[0] in cache then Some(cache[ns[0]])
      else
        assert forall j :: 1 <= j < |ns| ==> ns[j] == ns[1..][j - 1];
        FindTypeByNames(Some(ns[1..]), cache)
  }

  /** The dictionary the Add loop builds from ts, when no name repeats. */
  function CacheOf(ts: seq<TypeInfo>): map<string, TypeInfo> {
    if ts == [] then map[]
    else CacheOf(ts[..|ts| - 1])[ts[|ts| - 1].fullName := ts[|ts| - 1]]
  }

  /** The index of the first type whose full name an earlier type already has, or -1. */
  function FirstDuplicate(ts: seq<TypeInfo>): (k: int)
    ensures -1 <= k < |ts|
  {
    if ts == [] then -1
    else
      var n := |ts| - 1;
      var k := FirstDuplicate(ts[..n]);
      if k != -1 then k
      else if ts[n].fullName in CacheOf(ts[..n]) then n
      else -1
  }

  /** Full names of ts are pairwise different. */
  ghost predicate DistinctNames(ts: seq<TypeInfo>) {
    forall i, j :: 0 <= i < j < |ts| ==> ts[i].fullName != ts[j].fullName
  }

  /**
   * The cache holds exactly the full names of the types added, each mapped to a
   * type of that name; with distinct names, each name maps to its own type.
   */
  lemma {:induction false} CacheOfContents(ts: seq<TypeInfo>)
    ensures forall name :: name in CacheOf(ts) <==> exists i :: 0 <= i < |ts| && ts[i].fullName == name
    ensures forall name :: name in CacheOf(ts) ==> CacheOf(ts)[name].fullName == name
    ensures DistinctNames(ts) ==> forall i :: 0 <= i < |ts| ==> CacheOf(ts)[ts[i].fullName] == ts[i]
  {
    if ts != [] {
      var n := |ts| - 1;
      CacheOfContents(ts[..n]);
      assert forall i :: 0 <= i < n ==> ts[..n][i] == ts[i];
      if DistinctNames(ts) {
        assert DistinctNames(ts[..n]);
      }
    }
  }

  /** Add fails exactly on a repeated full name: -1 means every name is distinct. */
  lemma {:induction false} FirstDuplicateMeansRepeat(ts: seq<TypeInfo>)
    ensures FirstDuplicate(ts) == -1 <==> DistinctNames(ts)
    ensures FirstDuplicate(ts) != -1 ==>
      (DistinctNames(ts[..FirstDuplicate(ts)]) && ts[FirstDuplicate(ts)].fullName in CacheOf(ts[..FirstDuplicate(ts)]))
  {
    if ts != [] {
      var n := |ts| - 1;
      FirstDuplicateMeansRepeat(ts[..n]);
      CacheOfContents(ts[..n]);
      var k := FirstDuplicate(ts[..n]);
      if k != -1 {
        assert ts[..n][..k] == ts[..k];
        CacheOfContents(ts[..k]);
        assert !DistinctNames(ts) by {
          var i :| 0 <= i < k && ts[..k][i].fullName == ts[k].fullName;
          assert ts[i].fullName == ts[k].fullName;
        }
      } else if ts[n].fullName in CacheOf(ts[..n]) {
        assert ts[..n] == ts[..FirstDuplicate(ts)];
        var i :| 0 <= i < n && ts[..n][i].fullName == ts[n].fullName;
        assert ts[i].fullName == ts[n].fullName;
      } else {
        forall i, j | 0 <= i < j < |ts| ensures ts[i].fullName != ts[j].fullName {
          if j < n {
            assert ts[..n][i] == ts[i] && ts[..n][j] == ts[j];
          } else {
            assert ts[..n][i] == ts[i];
          }
        }
      }
    }
  }

  /** The static part of AssemblySource: the type-name cache. */
  class AssemblySource {
    var typeNameCache: map<string, TypeInfo>

    constructor ()
      ensures typeNameCache == map[]
    {
      typeNameCache := map[];
    }

    /**
     * Initialize's fill (lines 45-48): clears the cache, then adds every
     * extracted type under its full name; Dictionary.Add throws on the first
     * repeated name, leaving the types added before it in the cache.
     * `types` is the extracted types of every assembly, concatenated in order.
     */
    method Initialize(types: seq<TypeInfo>) returns (r: Result<()>)
      modifies this
      ensures var k := FirstDuplicate(types);
        && (k == -1 ==> r == Ok(()) && typeNameCache == CacheOf(types))
        && (k != -1 ==> r == Err(DuplicateKey(types[k].fullName)) && typeNameCache == CacheOf(types[..k]))
    {
      typeNameCache := map[];
      for i := 0 to |types|
        invariant typeNameCache == CacheOf(types[..i])
        invariant FirstDuplicate(types[..i]) == -1
      {
        assert types[..i + 1][..i] == types[..i];
        var t := types[i];
        if t.fullName in typeNameCache {
          FirstDuplicateOfPrefix(types, i + 1);
          return Err(DuplicateKey(t.fullName));
        }
        typeNameCache := typeNameCache[t.fullName := t];
      }
      assert types[..|types|] == types;
      r := Ok(());
    }
  }

  /** A repeat found in a prefix is the first repeat of the whole sequence. */
  lemma {:induction false} FirstDuplicateOfPrefix(ts: seq<TypeInfo>, j: nat)
    requires j <= |ts| && FirstDuplicate(ts[..j]) != -1
    ensures FirstDuplicate(ts) == FirstDuplicate(ts[..j])
  {
    if j < |ts| {
      var n := |ts| - 1;
      assert ts[..n][..j] == ts[..j];
      FirstDuplicateOfPrefix(ts[..n], j);
    } else {
      assert ts[..j] == ts;
    }
  }
}
