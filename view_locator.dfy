/**
 * ViewLocator's naming convention: from a view model's full type name to the
 * candidate names of its view, and the lookup of the first candidate in the
 * type-name cache. All of it is string rewriting.
 */
module ViewLocation {
  import opened Wrappers
  import opened Seqs
  import opened AssemblySources

  /** sub occurs in s starting at index i. */
  predicate OccursAt(s: string, sub: string, i: int) {
    0 <= i && i + |sub| <= |s| && s[i..i + |sub|] == sub
  }

  /** String.Contains (ordinal). */
  ghost predicate Contains(s: string, sub: string) {
    exists i :: OccursAt(s, sub, i)
  }

  /**
   * String.Replace (ordinal): scans left to right and replaces each
   * non-overlapping occurrence of oldValue; an empty oldValue is an
   * ArgumentException in .NET, so it is excluded.
   */
  function Replace(s: string, oldValue: string, newValue: string): (r: string)
    requires oldValue != []
    ensures newValue == oldValue ==> r == s
    ensures |newValue| == |oldValue| ==> |r| == |s|
    decreases |s|
  {
    if |s| < |oldValue| then s
    else if s[..|oldValue|] == oldValue then newValue + Replace(s[|oldValue|..], oldValue, newValue)
    else [s[0]] + Replace(s[1..], oldValue, newValue)
  }

  /**
   * Replacing by something shorter leaves a string without occurrences
   * unchanged and strictly shortens every string that has one.
   */
  lemma {:induction false} ReplaceShortens(s: string, oldValue: string, newValue: string)
    requires oldValue != [] && |newValue| < |oldValue|
    ensures |Replace(s, oldValue, newValue)| <= |s|
    ensures !Contains(s, oldValue) ==> Replace(s, oldValue, newValue) == s
    ensures Contains(s, oldValue) ==> |Replace(s, oldValue, newValue)| < |s|
    decreases |s|
  {
    if |s| < |oldValue| {
    } else if s[..|oldValue|] == oldValue {
      assert OccursAt(s, oldValue, 0);
      ReplaceShortens(s[|oldValue|..], oldValue, newValue);
    } else {
      var t := s[1..];
      ReplaceShortens(t, oldValue, newValue);
      assert s == [s[0]] + t;
      if Contains(s, oldValue) {
        var i :| OccursAt(s, oldValue, i);
        assert i != 0;
        assert t[i - 1..i - 1 + |oldValue|] == s[i..i + |oldValue|];
        assert OccursAt(t, oldValue, i - 1);
      }
      if Contains(t, oldValue) {
        var i :| OccursAt(t, oldValue, i);
        assert s[i + 1..i + 1 + |oldValue|] == t[i..i + |oldValue|];
        assert OccursAt(s, oldValue, i + 1);
      }
    }
  }

  /**
   * TransformName: the name with "ViewModel" replaced by "View", then the name
   * with "View" appended, minus any candidate equal to the name itself.
   */
  function TransformName(typeName: string): (r: seq<string>)
    ensures typeName !in r
    ensures 1 <= |r| <= 2 && r[|r| - 1] == typeName + "View"
    ensures |r| == 2 <==> Contains(typeName, "ViewModel")
    ensures |r| == 2 ==> r[0] == Replace(typeName, "ViewModel", "View") && r[0] != r[1]
  {
    var replaced := Replace(typeName, "ViewModel", "View");
    var appended := typeName + "View";
    ReplaceShortens(typeName, "ViewModel", "View");
    assert appended != typeName by { assert |appended| == |typeName| + 4; }
    var r := Without([replaced, appended], [typeName]);
    assert r == (if replaced == typeName then [] else [replaced]) + [appended] by {
      assert [replaced, appended][1..] == [appended];
      assert [appended][1..] == [];
      assert Without([appended], [typeName]) == [appended] + Without([], [typeName]);
      assert Without([replaced, appended], [typeName])
        == (if replaced in [typeName] then [] else [replaced]) + Without([appended], [typeName]);
    }
    r
  }

  /**
   * The generic-arity strip of LocateTypeForModelType: the name up to its first
   * backtick, or the whole name when it has none.
   */
  function StripGenericSuffix(name: string): (r: string)
    ensures r <= name && '`' !in r
    ensures '`' !in name ==> r == name
    ensures '`' in name ==> |r| < |name| && name[|r|] == '`'
  {
    var i := IndexOf(name, '`');
    if i < 0 then name else name[..i]
  }

  /** s.Substring(s.IndexOf('.') + 1): drops everything up to the first dot, if any. */
  function AfterFirstDot(s: string): (r: string)
    ensures |r| <= |s| && r == s[|s| - |r|..]
    ensures '.' !in s ==> r == s
    ensures '.' in s ==> |r| < |s| && s[|s| - |r| - 1] == '.' && '.' !in s[..|s| - |r| - 1]
  {
    s[IndexOf(s, '.') + 1..]
  }

  /**
   * ModifyModelTypeAtDesignTime: a name starting with an underscore loses its
   * first two dot-separated segments (only the first when it has a single
   * dot); any other name is returned unchanged. DesignTimeDropsTwoSegments and
   * DesignTimeDropsOneSegment state the exact cut.
   */
  function ModifyModelTypeAtDesignTime(modelTypeName: string): (r: string)
    ensures |r| <= |modelTypeName| && r == modelTypeName[|modelTypeName| - |r|..]
    ensures (|modelTypeName| == 0 || modelTypeName[0] != '_') ==> r == modelTypeName
    ensures '.' !in modelTypeName ==> r == modelTypeName
    ensures |modelTypeName| > 0 && modelTypeName[0] == '_' && '.' in modelTypeName ==>
      |r| < |modelTypeName| && modelTypeName[|modelTypeName| - |r| - 1] == '.'
  {
    if |modelTypeName| > 0 && modelTypeName[0] == '_' then AfterFirstDot(AfterFirstDot(modelTypeName))
    else modelTypeName
  }

  /** The first occurrence of x in p + [x] + q is the one after p when p has none. */
  lemma IndexOfFirst(p: string, x: char, q: string)
    requires x !in p
    ensures IndexOf(p + [x] + q, x) == |p|
  {
    var s := p + [x] + q;
    assert s[|p|] == x;
  }

  /**
   * A design-time name `_a.b.rest`, where a and b hold no dot, becomes `rest`:
   * the designer's prefix and the namespace segment after it are dropped.
   */
  lemma DesignTimeDropsTwoSegments(a: string, b: string, rest: string)
    requires '.' !in a && '.' !in b
    ensures ModifyModelTypeAtDesignTime("_" + a + "." + b + "." + rest) == rest
  {
    var name := "_" + a + "." + b + "." + rest;
    IndexOfFirst("_" + a, '.', b + "." + rest);
    assert name == ("_" + a) + ['.'] + (b + "." + rest);
    var once := AfterFirstDot(name);
    assert once == b + "." + rest;
    IndexOfFirst(b, '.', rest);
    assert once == b + ['.'] + rest;
  }

  /** A design-time name `_a.rest` with no further dot becomes `rest`. */
  lemma DesignTimeDropsOneSegment(a: string, rest: string)
    requires '.' !in a && '.' !in rest
    ensures ModifyModelTypeAtDesignTime("_" + a + "." + rest) == rest
  {
    var name := "_" + a + "." + rest;
    IndexOfFirst("_" + a, '.', rest);
    assert name == ("_" + a) + ['.'] + rest;
    assert AfterFirstDot(name) == rest;
  }

  /** The name LocateTypeForModelType derives from the model's full type name. */
  function ViewTypeName(modelTypeName: string, inDesignMode: bool): string {
    StripGenericSuffix(if inDesignMode then ModifyModelTypeAtDesignTime(modelTypeName) else modelTypeName)
  }

  /**
   * LocateTypeForModelType: the cached type of the first candidate view name,
   * the "ViewModel"-to-"View" replacement taking precedence; null when neither
   * candidate is cached. The design-mode flag is passed in.
   */
  function LocateTypeForModelType(modelTypeName: string, inDesignMode: bool, cache: map<string, TypeInfo>): (r: Option<TypeInfo>)
    ensures var candidates := TransformName(ViewTypeName(modelTypeName, inDesignMode));
      && (r == None <==> forall n :: n in candidates ==> n !in cache)
      && (candidates[0] in cache ==> r == Some(cache[candidates[0]]))
      && (r.Some? ==> exists n :: n in candidates && n in cache && r.value == cache[n])
  {
    FindTypeByNames(Some(TransformName(ViewTypeName(modelTypeName, inDesignMode))), cache)
  }

  /**
   * Over a cache filled from types with distinct names, the located view is one
   * of those types, its name is a candidate, and outside design mode a view
   * model without a generic suffix is never located as its own view.
   */
  lemma LocatedViewIsNamedCandidate(modelTypeName: string, inDesignMode: bool, types: seq<TypeInfo>)
    requires DistinctNames(types)
    ensures var r := LocateTypeForModelType(modelTypeName, inDesignMode, CacheOf(types));
      r.Some? ==>
        && r.value in types
        && r.value.fullName in TransformName(ViewTypeName(modelTypeName, inDesignMode))
        && (!inDesignMode && '`' !in modelTypeName ==> r.value.fullName != modelTypeName)
  {
    var cache := CacheOf(types);
    CacheOfContents(types);
    var r := LocateTypeForModelType(modelTypeName, inDesignMode, cache);
    if r.Some? {
      var n :| n in TransformName(ViewTypeName(modelTypeName, inDesignMode)) && n in cache && r.value == cache[n];
      var i :| 0 <= i < |types| && types[i].fullName == n;
      assert r.value == types[i];
    }
  }
}
