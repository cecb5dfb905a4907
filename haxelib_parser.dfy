/**
 * HaxelibParser: the string form under which a haxelib library reference
 * (a name and a version) is stored, "haxelib|<name>|<version>", and the
 * parser meant to read it back.
 */
module HaxelibParser {
  import opened Wrappers
  import opened JavaSplit

  /** A HaxelibItem: a library name and version. */
  datatype HaxelibItem = HaxelibItem(name: string, version: string)

  /** Joiner.on(separator).join(parts): the parts with the separator between each two. */
  function Join(separator: string, parts: seq<string>): (r: string)
    ensures parts == [] ==> r == ""
    ensures parts != [] ==> |r| == TotalLength(parts) + (|parts| - 1) * |separator|
    ensures parts != [] ==> r[..|parts[0]|] == parts[0]
    decreases |parts|
  {
    if parts == [] then ""
    else if |parts| == 1 then parts[0]
    else parts[0] + separator + Join(separator, parts[1..])
  }

  /** The summed length of the parts. */
  function TotalLength(parts: seq<string>): nat
    decreases |parts|
  {
    if parts == [] then 0 else |parts[0]| + TotalLength(parts[1..])
  }

  /** Joining three parts puts the separator between the first and second and between the second and third. */
  lemma JoinThree(separator: string, a: string, b: string, c: string)
    ensures Join(separator, [a, b, c]) == a + separator + b + separator + c
  {
    assert [a, b, c][1..] == [b, c];
    assert [b, c][1..] == [c];
    assert Join(separator, [b, c]) == b + separator + c;
    assert Join(separator, [a, b, c]) == a + separator + (b + separator + c);
  }

  /**
   * stringifyHaxelib: "haxelib", the name and the version, collected in a list
   * and joined with "|".
   */
  method StringifyHaxelib(name: string, version: string) returns (s: string)
    ensures s == "haxelib" + "|" + name + "|" + version
    ensures s[..8] == "haxelib|"
    ensures |s| == |name| + |version| + 9
  {
    var strings: seq<string> := [];
    strings := strings + ["haxelib"];
    strings := strings + [name];
    strings := strings + [version];
    assert strings == ["haxelib", name, version];
    s := Join("|", strings);
    JoinThree("|", "haxelib", name, version);
  }

  /**
   * parseHaxelib: splits `data` with data.split("|") and makes an item of the
   * second and third fields when there are exactly three fields and the
   * first is "haxelib"; null otherwise.
   */
  function ParseHaxelib(data: string): (item: Option<HaxelibItem>)
    ensures item.Some? ==>
              var fields := SplitOnEmptyAlternation(data);
              |fields| == 3 && fields[0] == "haxelib" && item.value == HaxelibItem(fields[1], fields[2])
  {
    var strings := SplitOnEmptyAlternation(data);
    if |strings| == 3 && strings[0] == "haxelib" then Some(HaxelibItem(strings[1], strings[2])) else None
  }

  /**
   * parseHaxelib never returns an item: "|" splits into fields of at most one
   * character, and none of them can be the seven-character "haxelib".
   */
  lemma ParseHaxelibAlwaysNull(data: string)
    ensures ParseHaxelib(data) == None
  {
    var fields := SplitOnEmptyAlternation(data);
    SplitOnEmptyAlternationShortFields(data);
    if |fields| == 3 {
      assert |fields[0]| <= 1 < |"haxelib"|;
    }
  }

  /** So the string stringifyHaxelib produces for any name and version is not read back. */
  lemma ParseAfterStringifyFails(name: string, version: string)
    ensures ParseHaxelib("haxelib" + "|" + name + "|" + version) == None
  {
    ParseHaxelibAlwaysNull("haxelib" + "|" + name + "|" + version);
  }

  /** parseHaxelib as evidently intended, splitting on a literal '|' (data.split("\\|")). */
  function ParseHaxelibLiteral(data: string): (item: Option<HaxelibItem>)
    ensures item.Some? ==>
              var fields := SplitOnChar(data, '|');
              |fields| == 3 && fields[0] == "haxelib" && item.value == HaxelibItem(fields[1], fields[2])
  {
    var strings := SplitOnChar(data, '|');
    if |strings| == 3 && strings[0] == "haxelib" then Some(HaxelibItem(strings[1], strings[2])) else None
  }

  /** The '|' matches in the stringified form: the two separators, when name and version contain none. */
  lemma SeparatorMatches(name: string, version: string)
    requires '|' !in name && '|' !in version
    ensures var s := "haxelib" + "|" + name + "|" + version;
      CharMatchesFrom(s, '|', 0) == [Match(7, 8), Match(8 + |name|, 9 + |name|)]
  {
    var s := "haxelib" + "|" + name + "|" + version;
    var a := |name|;
    assert forall i :: 0 <= i < 7 ==> s[i] == "haxelib"[i];
    CharMatchesSkip(s, '|', 0, 7);
    assert s[7] == '|';
    assert CharMatchesFrom(s, '|', 7) == [Match(7, 8)] + CharMatchesFrom(s, '|', 8);
    assert forall i :: 8 <= i < 8 + a ==> s[i] == name[i - 8];
    CharMatchesSkip(s, '|', 8, 8 + a);
    assert s[8 + a] == '|';
    assert CharMatchesFrom(s, '|', 8 + a) == [Match(8 + a, 9 + a)] + CharMatchesFrom(s, '|', 9 + a);
    assert forall i :: 9 + a <= i < |s| ==> s[i] == version[i - 9 - a];
    CharMatchesSkip(s, '|', 9 + a, |s|);
    assert CharMatchesFrom(s, '|', |s|) == [];
  }

  /** The fields a literal-'|' split makes of the stringified form, before trailing empty fields are dropped. */
  lemma LiteralSplitLoop(name: string, version: string)
    requires '|' !in name && '|' !in version
    ensures var s := "haxelib" + "|" + name + "|" + version;
      SplitLoop(s, CharMatchesFrom(s, '|', 0), 0, []) == (["haxelib", name], 9 + |name|)
  {
    var s := "haxelib" + "|" + name + "|" + version;
    var a := |name|;
    SeparatorMatches(name, version);
    var ms := [Match(7, 8), Match(8 + a, 9 + a)];
    assert ms[1..] == [Match(8 + a, 9 + a)] && ms[1..][1..] == [];
    assert s[0..7] == "haxelib";
    assert s[8..8 + a] == name;
    var empty: seq<string> := [];
    assert empty + [s[0..7]] == ["haxelib"];
    assert SplitLoop(s, ms, 0, empty) == SplitLoop(s, ms[1..], 8, empty + [s[0..7]]);
    assert ["haxelib"] + [s[8..8 + a]] == ["haxelib", name];
    assert SplitLoop(s, ms[1..], 8, ["haxelib"]) == SplitLoop(s, ms[1..][1..], 9 + a, ["haxelib"] + [s[8..8 + a]]);
  }

  /**
   * With the literal split, a stringified name and version are read back,
   * provided neither contains '|' and the version is not empty.
   */
  lemma LiteralRoundTrip(name: string, version: string)
    requires '|' !in name && '|' !in version && version != ""
    ensures ParseHaxelibLiteral("haxelib" + "|" + name + "|" + version) == Some(HaxelibItem(name, version))
  {
    var s := "haxelib" + "|" + name + "|" + version;
    LiteralSplitLoop(name, version);
    assert s[9 + |name|..] == version;
    assert SplitOnChar(s, '|') == ["haxelib", name, version];
  }

  /**
   * Even the literal split loses an empty version: Java drops the trailing
   * empty field, leaving fewer than three.
   */
  lemma LiteralSplitDropsEmptyVersion(name: string)
    requires '|' !in name
    ensures ParseHaxelibLiteral("haxelib" + "|" + name + "|" + "") == None
  {
    var s := "haxelib" + "|" + name + "|" + "";
    LiteralSplitLoop(name, "");
    assert s[9 + |name|..] == "";
    var withRest := ["haxelib", name, ""];
    assert withRest[..2] == ["haxelib", name];
    assert |SplitOnChar(s, '|')| <= 2;
  }
}
