/**
 The database objects of the server: VrSDK with its insert-if-absent feature map and
 XmlDatabase with its growing vector, each method tied to the value-level database.
 */
module XmlDatabase {
  import opened CStrings
  import opened SdkDatabase

  class VrSDK {
    const mType: XmlName
    const mVersion: Text
    var mVFs: map<Text, UInt64>

    constructor (typ: XmlName, version: Text)
      ensures Value() == Sdk(typ, version, map[])
    {
      mType, mVersion := typ, version;
      mVFs := map[];
    }

    function Value(): Sdk
      reads this
    {
      Sdk(mType, mVersion, mVFs)
    }

    method AddExternalSDKItem(v: Option<Text>, f: UInt64) returns (ret: int)
      modifies this
      ensures ret == if v.None? then -1 else if v.value in old(mVFs) then 1 else 0
      ensures mVFs == if v.None? then old(mVFs) else AddFeature(old(mVFs), v.value, f)
    {
      if v.None? {
        return -1;
      }
      if v.value in mVFs {
        return 1;
      }
      mVFs := mVFs[v.value := f];
      ret := 0;
    }

    method GetFeature(v: Option<Text>) returns (f: UInt64)
      ensures f == if v.None? then 0 else FeatureOf(Value(), v.value)
    {
      if v.None? {
        return 0;
      }
      var str := v.value;
      var found := FindDot(str);
      if found != -1 {
        str := str[..found];
      }
      if str !in mVFs {
        return 0;
      }
      f := mVFs[str];
    }
  }

  /** std::string::find('.'), with -1 for npos. */
  method FindDot(s: Text) returns (i: int)
    ensures i == if '.' in s then |UpToDot(s)| else -1
    ensures -1 <= i < |s|
    ensures UpToDot(s) == if i == -1 then s else s[..i]
  {
    i := 0;
    while i < |s|
      invariant 0 <= i <= |s|
      invariant '.' !in s[..i]
    {
      if s[i] == '.' {
        UpToDotOf(s[..i], s[i..]);
        assert s[..i] + s[i..] == s;
        return;
      }
      i := i + 1;
    }
    UpToDotOf(s, "");
    assert s + "" == s;
    i := -1;
  }

  class XmlDatabase {
    var mData: seq<VrSDK>

    ghost predicate Valid()
      reads this
    {
      forall i, j :: 0 <= i < j < |mData| ==> mData[i] != mData[j]
    }

    function Model(): (db: seq<Sdk>)
      reads this, mData
      ensures |db| == |mData| && forall i :: 0 <= i < |db| ==> db[i] == mData[i].Value()
    {
      seq(|mData|, i requires 0 <= i < |mData| reads this, mData => mData[i].Value())
    }

    constructor ()
      ensures Valid() && mData == []
    {
      mData := [];
    }

    method GetAllSDKTypes() returns (types: string)
      ensures types == Join(Types(Model()))
    {
      types := "";
      var i := 0;
      while i < |mData|
        invariant 0 <= i <= |mData|
        invariant types == Join(Types(Model())[..i])
      {
        if i != 0 {
          types := types + "^";
        }
        types := types + mData[i].mType;
        i := i + 1;
        ghost var names := Types(Model())[..i];
        assert names[..|names| - 1] == Types(Model())[..i - 1];
      }
      assert Types(Model())[..i] == Types(Model());
    }

    method GetSDK(typ: Text) returns (sdk: VrSDK?)
      ensures sdk == null <==> Find(Model(), typ) == None
      ensures sdk != null ==> sdk in mData && Find(Model(), typ) == Some(sdk.Value())
      ensures sdk == null ==> forall k :: 0 <= k < |mData| ==> !SameText(typ, mData[k].mType)
      ensures sdk != null ==> exists i :: 0 <= i < |mData| && mData[i] == sdk && SameText(typ, mData[i].mType)
                                          && forall k :: 0 <= k < i ==> !SameText(typ, mData[k].mType)
    {
      var i := 0;
      while i < |mData|
        invariant 0 <= i <= |mData|
        invariant Find(Model(), typ) == Find(Model()[i..], typ)
        invariant forall k :: 0 <= k < i ==> !SameText(typ, mData[k].mType)
      {
        StrCaseEqIff(typ, mData[i].mType);
        if StrCaseEq(typ, mData[i].mType) {
          return mData[i];
        }
        i := i + 1;
      }
      sdk := null;
    }

    method GenerateSDK(typ: Option<XmlName>, version: Option<Text>) returns (sdk: VrSDK?)
      requires Valid()
      modifies this
      ensures Valid()
      ensures sdk == null <==> typ.None? || version.None?
      ensures sdk == null ==> mData == old(mData)
      ensures sdk != null ==>
                && Model() == Generate(old(Model()), typ.value, version.value)
                && var i := Index(Model(), typ.value); sdk == mData[i]
      ensures forall i :: 0 <= i < |mData| ==> mData[i] in old(mData) || fresh(mData[i])
    {
      if typ.None? || version.None? {
        return null;
      }
      var i := 0;
      while i < |mData|
        invariant 0 <= i <= |mData|
        invariant forall k :: 0 <= k < i ==> mData[k].mType != typ.value
      {
        if typ.value == mData[i].mType {
          assert Model()[i].typ == typ.value;
          return mData[i];
        }
        i := i + 1;
      }
      var made := new VrSDK(typ.value, version.value);
      ghost var before := Model();
      mData := mData + [made];
      assert Model() == before + [made.Value()];
      sdk := made;
    }

    /** XmlDatabase.cpp, lines 107 to 118: the nodes under the root, each of which may register an item. */
    static method AddChildren(sdk: VrSDK, children: seq<Item>)
      modifies sdk
      ensures sdk.mVFs == AddItems(old(sdk.mVFs), children)
    {
      var k := 0;
      while k < |children|
        invariant 0 <= k <= |children|
        invariant sdk.mVFs == AddItems(old(sdk.mVFs), children[..k])
      {
        var node := children[k];
        if node.name == EXTERNAL_SDK {
          if node.version.Some? && node.content.Some? {
            var _ := sdk.AddExternalSDKItem(node.version, ToUInt64(Atoll(node.content.value)));
          }
        }
        k := k + 1;
        assert children[..k][..k - 1] == children[..k - 1];
      }
      assert children[..k] == children;
    }

    /** One document: its items go to the object stored for its root name. */
    method Parser(path: Document) returns (ret: int)
      requires Valid()
      modifies this, mData
      ensures Valid()
      ensures Model() == Parse(old(Model()), path)
      ensures ret == if Versioned(path) then 0 else -1
      ensures forall i :: 0 <= i < |mData| ==> mData[i] in old(mData) || fresh(mData[i])
    {
      if path.NullPath? || path.Unreadable? || path.NoRoot? {
        return -1;
      }
      ghost var before := Model();
      var sdk := GenerateSDK(Some(path.name), path.version);
      if sdk == null {
        assert Model() == before;
        return -1;
      }
      ghost var grown := Model();
      ghost var at := Index(grown, path.name);
      ghost var data := mData;
      assert sdk in data;
      AddChildren(sdk, path.children);
      assert forall i :: 0 <= i < |data| && i != at ==> data[i].Value() == grown[i];
      ParsedInPlace(before, path, grown, Model());
      ret := 0;
    }
  }

  /** Changing the one entry in place is parsing the document. */
  lemma {:induction false} ParsedInPlace(before: seq<Sdk>, path: Document, grown: seq<Sdk>, db: seq<Sdk>)
    requires Versioned(path) && grown == Generate(before, path.name, path.version.value)
    requires |db| == |grown|
    requires var at := Index(grown, path.name);
             && db[at] == grown[at].(features := AddItems(grown[at].features, path.children))
             && forall i :: 0 <= i < |db| && i != at ==> db[i] == grown[i]
    ensures db == Parse(before, path)
  {
  }
}
