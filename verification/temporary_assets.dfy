// Temporary assets: short-lived dice a character adds and removes by name.
// The store is the character's `temporary_assets` handler, a map from a
// normalised key to the asset.

module TemporaryAssets {
  import opened Wrappers
  import opened Strings

  /** The die sizes an asset may have. */
  const DieSizes: set<int> := {4, 6, 8, 10, 12}

  /** A stored asset: the name as typed, its current value and its base, both the die size. */
  datatype Asset = Asset(name: string, value: int, base: int)

  /** Why `asset/add` or `asset/remove` refused. */
  datatype AssetError = AddUsage | NotANumber | BadDieSize | RemoveUsage | UnknownAsset

  /** The stored key for a name: lower-cased, spaces turned into underscores. */
  function AssetKey(name: string): (k: string)
  {
    ReplaceChar(Lower(name), ' ', '_')
  }

  /** Keys have no spaces and no capitals, and normalising a key again leaves it as it is. */
  lemma AssetKeyNormal(name: string)
    ensures |AssetKey(name)| == |name|
    ensures ' ' !in AssetKey(name) && IsLower(AssetKey(name))
    ensures AssetKey(AssetKey(name)) == AssetKey(name)
  {
    var k := AssetKey(name);
    forall i | 0 <= i < |k|
      ensures k[i] != ' ' && !IsUpper(k[i])
    {
      assert k[i] == (if LowerChar(name[i]) == ' ' then '_' else LowerChar(name[i]));
    }
    LowerOfLower(k);
  }

  /** `split("=", 1)[0]`: the text before the first '='. */
  function NameBeforeEquals(args: string): (r: string)
    requires '=' in args
    ensures '=' !in r
  {
    args[..IndexOf(args, '=')]
  }

  /** `int(split("=", 1)[1])`: the text after the first '=' read as a number. */
  function SizeAfterEquals(args: string): Option<int>
    requires '=' in args
  {
    ParseInt(args[IndexOf(args, '=') + 1..])
  }

  /**
   * The arguments of `asset/add`: "<name>=<die size>". The name is the
   * stripped text before the first '='; the rest must read as one of the
   * five die sizes.
   */
  function ParseAdd(args: string): (r: Result<(string, int), AssetError>)
    ensures args == [] || '=' !in args ==> r == Err(AddUsage)
    ensures r.Ok? ==> r.value.1 in DieSizes && IsStripped(r.value.0)
    ensures '=' in args ==> (r.Ok? <==> SizeAfterEquals(args).Some? && SizeAfterEquals(args).value in DieSizes)
    ensures r.Ok? ==> r.value == (Strip(NameBeforeEquals(args)), SizeAfterEquals(args).value)
    ensures '=' in args && SizeAfterEquals(args).None? ==> r == Err(NotANumber)
    ensures '=' in args && SizeAfterEquals(args).Some? && SizeAfterEquals(args).value !in DieSizes ==> r == Err(BadDieSize)
  {
    if '=' !in args then Err(AddUsage)
    else
      var n := SizeAfterEquals(args);
      if n.None? then Err(NotANumber)
      else if n.value !in DieSizes then Err(BadDieSize)
      else
        StripIsStripped(NameBeforeEquals(args));
        Ok((Strip(NameBeforeEquals(args)), n.value))
  }

  /** A stripped name without '=' and the decimal text of a die size read back as that asset. */
  lemma ParseAddRoundTrip(name: string, n: int)
    requires IsStripped(name) && '=' !in name
    requires n in DieSizes
    ensures ParseAdd(name + "=" + IntStr(n)) == Ok((name, n))
  {
    ParseIntStr(n);
    ParseAddOf(name, IntStr(n), n);
  }

  /** "name=rest" reads as the name and the number the rest reads as. */
  lemma ParseAddOf(name: string, rest: string, n: int)
    requires IsStripped(name) && '=' !in name
    requires ParseInt(rest) == Some(n) && n in DieSizes
    ensures ParseAdd(name + "=" + rest) == Ok((name, n))
  {
    SplitAtEquals(name, rest);
    StripOfStripped(name);
  }

  /** In "name=rest" with no '=' in the name, the first '=' is the one after the name. */
  lemma SplitAtEquals(name: string, rest: string)
    requires '=' !in name
    ensures '=' in name + "=" + rest
    ensures NameBeforeEquals(name + "=" + rest) == name
    ensures SizeAfterEquals(name + "=" + rest) == ParseInt(rest)
  {
    var args := name + "=" + rest;
    assert args[|name|] == '=' && args[..|name|] == name;
    IndexOfAt(args, '=', |name|);
    assert args[|name| + 1..] == rest;
  }

  /** The store after `asset/add`: the asset is stored (replacing any asset under the same key). */
  function AfterAdd(m: map<string, Asset>, args: string): (r: Result<map<string, Asset>, AssetError>)
    ensures r.Err? <==> ParseAdd(args).Err?
    ensures r.Ok? ==> var (name, size) := ParseAdd(args).value;
      AssetKey(name) in r.value && r.value[AssetKey(name)] == Asset(name, size, size)
      && forall k :: k != AssetKey(name) ==> (k in r.value <==> k in m) && (k in m ==> r.value[k] == m[k])
  {
    match ParseAdd(args)
    case Err(e) => Err(e)
    case Ok((name, size)) => Ok(m[AssetKey(name) := Asset(name, size, size)])
  }

  /** The store after `asset/remove`: the key of the stripped name must be there, and it goes. */
  function AfterRemove(m: map<string, Asset>, args: string): (r: Result<map<string, Asset>, AssetError>)
    ensures args == [] ==> r == Err(RemoveUsage)
    ensures args != [] && AssetKey(Strip(args)) !in m ==> r == Err(UnknownAsset)
    ensures r.Ok? ==> AssetKey(Strip(args)) in m && r.value == m - {AssetKey(Strip(args))}
  {
    if args == [] then Err(RemoveUsage)
    else
      var key := AssetKey(Strip(args));
      if key !in m then Err(UnknownAsset) else Ok(m - {key})
  }

  /** Storing under a key and then removing that key is removing the key. */
  lemma RemoveStored(m: map<string, Asset>, key: string, a: Asset)
    ensures m[key := a] - {key} == m - {key}
  {
    var l, r := m[key := a] - {key}, m - {key};
    assert forall k :: k in l <==> k in r;
    assert forall k :: k in l ==> l[k] == r[k];
  }

  /** Removing by the name an asset was added under takes exactly that asset away again. */
  lemma AddThenRemove(m: map<string, Asset>, args: string)
    requires AfterAdd(m, args).Ok?
    requires ParseAdd(args).value.0 != []
    ensures AfterRemove(AfterAdd(m, args).value, ParseAdd(args).value.0) == Ok(m - {AssetKey(ParseAdd(args).value.0)})
  {
    var p := ParseAdd(args).value;
    var key := AssetKey(p.0);
    var added := AfterAdd(m, args).value;
    assert added == m[key := Asset(p.0, p.1, p.1)];
    StripOfStripped(p.0);
    assert key in added;
    RemoveStored(m, key, Asset(p.0, p.1, p.1));
  }

  /** A character's temporary-asset handler. */
  class AssetStore {
    var assets: map<string, Asset>

    constructor()
      ensures assets == map[]
    {
      assets := map[];
    }

    /** `asset/add <name>=<die size>`: on a refusal nothing is stored. */
    method Add(args: string) returns (err: Option<AssetError>)
      modifies this
      ensures err.None? <==> AfterAdd(old(assets), args).Ok?
      ensures err.Some? ==> err.value == AfterAdd(old(assets), args).error && assets == old(assets)
      ensures err.None? ==> assets == AfterAdd(old(assets), args).value
    {
      if '=' !in args {
        return Some(AddUsage);
      }
      var name := Strip(NameBeforeEquals(args));
      var size := SizeAfterEquals(args);
      if size.None? {
        return Some(NotANumber);
      }
      if size.value !in DieSizes {
        return Some(BadDieSize);
      }
      assets := assets[AssetKey(name) := Asset(name, size.value, size.value)];
      return None;
    }

    /** `asset/remove <name>`: an unknown name is refused and the store is left as it was. */
    method Remove(args: string) returns (err: Option<AssetError>)
      modifies this
      ensures err.None? <==> AfterRemove(old(assets), args).Ok?
      ensures err.Some? ==> err.value == AfterRemove(old(assets), args).error && assets == old(assets)
      ensures err.None? ==> assets == AfterRemove(old(assets), args).value
    {
      if args == [] {
        return Some(RemoveUsage);
      }
      var key := AssetKey(Strip(args));
      if key !in assets {
        return Some(UnknownAsset);
      }
      assets := assets - {key};
      return None;
    }
  }
}
