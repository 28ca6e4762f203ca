/**
 TXT record entries as the wrapper builds and reads them. Publishing adds entries
 `name=value` (or a bare `name`); a resolved service's entries are split on every
 '=' and collected into a key -> value map, where an entry that does not split into
 exactly two parts maps its first part to the empty value. This differs from section
 6.4 of RFC 6763, which keeps everything after the first '=' as the value.
 */
module Txt {

  const Separator: char := '='

  /** Number of occurrences of `c` in `s`. */
  function Count(s: string, c: char): nat
  {
    if |s| == 0 then 0 else (if s[0] == c then 1 else 0) + Count(s[1..], c)
  }

  lemma {:induction false} CountZero(s: string, c: char)
    ensures Count(s, c) == 0 <==> c !in s
  {
    if |s| > 0 {
      CountZero(s[1..], c);
      assert s == [s[0]] + s[1..];
    }
  }

  /** The parts glued back together with `sep` between neighbours. */
  function Join(parts: seq<string>, sep: char): string
    requires 1 <= |parts|
  {
    if |parts| == 1 then parts[0] else parts[0] + [sep] + Join(parts[1..], sep)
  }

  /** `QByteArray::split(sep)`: cut at every occurrence, empty parts kept. */
  function Split(s: string, sep: char): (parts: seq<string>)
    ensures 1 <= |parts|
    ensures |parts| == Count(s, sep) + 1
    ensures forall i :: 0 <= i < |parts| ==> sep !in parts[i]
    ensures Join(parts, sep) == s
    decreases |s|
  {
    if |s| == 0 then [""]
    else
      var rest := Split(s[1..], sep);
      if s[0] == sep then
        [""] + rest
      else
        assert s == [s[0]] + s[1..];
        [[s[0]] + rest[0]] + rest[1..]
  }

  lemma {:induction false} SplitPrefix(a: string, t: string, sep: char)
    requires sep !in a
    ensures Split(a + t, sep) == [a + Split(t, sep)[0]] + Split(t, sep)[1..]
    decreases |a|
  {
    if |a| > 0 {
      var s := a + t;
      assert s[0] == a[0] && s[0] != sep;
      assert s[1..] == a[1..] + t;
      SplitPrefix(a[1..], t, sep);
      var r := Split(s[1..], sep);
      assert Split(s, sep) == [[s[0]] + r[0]] + r[1..];
      assert [a[0]] + (a[1..] + Split(t, sep)[0]) == a + Split(t, sep)[0];
    } else {
      assert a + t == t;
      assert a + Split(t, sep)[0] == Split(t, sep)[0];
    }
  }

  /** Splitting undoes joining separator-free parts. */
  lemma {:induction false} SplitJoin(parts: seq<string>, sep: char)
    requires 1 <= |parts|
    requires forall i :: 0 <= i < |parts| ==> sep !in parts[i]
    ensures Split(Join(parts, sep), sep) == parts
    decreases |parts|
  {
    if |parts| == 1 {
      SplitPrefix(parts[0], "", sep);
      assert parts[0] + "" == parts[0];
    } else {
      var rest := Join(parts[1..], sep);
      SplitJoin(parts[1..], sep);
      assert parts[0] + [sep] + rest == parts[0] + ([sep] + rest);
      SplitPrefix(parts[0], [sep] + rest, sep);
      assert ([sep] + rest)[1..] == rest;
      assert Split([sep] + rest, sep) == [""] + parts[1..];
      assert parts[0] + "" == parts[0];
      assert parts == [parts[0]] + parts[1..];
    }
  }

  datatype Pair = Pair(key: string, value: string)

  /** `addServiceTxtRecord(name, value)`: the entry `name=value`. */
  function Entry(name: string, value: string): string
  {
    name + [Separator] + value
  }

  /** One received entry: two parts give key -> value, any other count key -> "". */
  function ParseEntry(e: string): (p: Pair)
    ensures Separator !in p.key
    ensures p.key <= e
  {
    var parts := Split(e, Separator);
    if |parts| == 2 then Pair(parts[0], parts[1]) else Pair(parts[0], "")
  }

  /**
   The cases of `ParseEntry`: with exactly one '=' the entry is key=value; otherwise
   the value is empty, and the key is the whole entry or the text before its first '='.
   */
  lemma ParseEntryCases(e: string)
    ensures Count(e, Separator) == 1 ==>
              Separator !in ParseEntry(e).value && e == Entry(ParseEntry(e).key, ParseEntry(e).value)
    ensures Count(e, Separator) != 1 ==> ParseEntry(e).value == ""
    ensures Count(e, Separator) == 0 ==> ParseEntry(e).key == e
    ensures Count(e, Separator) != 0 ==> ParseEntry(e).key + [Separator] <= e
  {
    var parts := Split(e, Separator);
    assert |parts| == 2 ==> Join(parts[1..], Separator) == parts[1];
  }

  /** The key -> value map built from received entries; a later entry overwrites an earlier one. */
  function ParseTxt(es: seq<string>): (m: map<string, string>)
    ensures forall k :: k in m <==> exists i :: 0 <= i < |es| && ParseEntry(es[i]).key == k
    decreases |es|
  {
    if |es| == 0 then map[]
    else
      var p := ParseEntry(es[|es| - 1]);
      var m := ParseTxt(es[..|es| - 1]);
      assert forall i :: 0 <= i < |es| - 1 ==> es[..|es| - 1][i] == es[i];
      m[p.key := p.value]
  }

  /** The value kept for a key is the one from the last entry carrying that key. */
  lemma {:induction false} ParseTxtLast(es: seq<string>, i: int)
    requires 0 <= i < |es|
    requires forall j :: i < j < |es| ==> ParseEntry(es[j]).key != ParseEntry(es[i]).key
    ensures ParseEntry(es[i]).key in ParseTxt(es)
    ensures ParseTxt(es)[ParseEntry(es[i]).key] == ParseEntry(es[i]).value
    decreases |es|
  {
    if i < |es| - 1 {
      var init := es[..|es| - 1];
      assert init[i] == es[i];
      forall j | i < j < |init|
        ensures ParseEntry(init[j]).key != ParseEntry(init[i]).key
      {
        assert init[j] == es[j];
      }
      ParseTxtLast(init, i);
    }
  }

  /** An entry built from a separator-free name and value reads back as that pair. */
  lemma EntryRoundTrip(name: string, value: string)
    requires Separator !in name && Separator !in value
    ensures ParseEntry(Entry(name, value)) == Pair(name, value)
  {
    SplitJoin([name, value], Separator);
  }

  /** A bare name (`addServiceTxtRecord(nameOnly)`) reads back with the empty value. */
  lemma NameOnlyRoundTrip(name: string)
    requires Separator !in name
    ensures ParseEntry(name) == Pair(name, "")
  {
    CountZero(name, Separator);
  }

  /** A value that itself holds '=' is lost: `a=b=c` reads back as `a` -> "". */
  lemma ValueWithSeparatorIsDropped()
    ensures ParseEntry("a=b=c") == Pair("a", "")
  {
    var parts := ["a", "b", "c"];
    assert Join(parts[2..], '=') == "c";
    assert Join(parts[1..], '=') == "b=c";
    assert Join(parts, '=') == "a=b=c";
    SplitJoin(parts, '=');
  }

  /** The entries `addServiceTxtRecord(key, value)` builds for each pair, in order. */
  function Entries(ps: seq<Pair>): (es: seq<string>)
    ensures |es| == |ps|
    decreases |ps|
  {
    if |ps| == 0 then [] else [Entry(ps[0].key, ps[0].value)] + Entries(ps[1..])
  }

  lemma {:induction false} EntriesAt(ps: seq<Pair>)
    ensures forall i :: 0 <= i < |ps| ==> Entries(ps)[i] == Entry(ps[i].key, ps[i].value)
    decreases |ps|
  {
    if |ps| > 0 {
      EntriesAt(ps[1..]);
    }
  }

  /** The entry built from a separator-free pair parses back to that pair. */
  lemma EntryAtParses(ps: seq<Pair>, i: int)
    requires 0 <= i < |ps|
    requires Separator !in ps[i].key && Separator !in ps[i].value
    ensures ParseEntry(Entries(ps)[i]) == ps[i]
  {
    EntriesAt(ps);
    EntryRoundTrip(ps[i].key, ps[i].value);
  }

  lemma TxtKeysFromPairs(ps: seq<Pair>)
    requires forall i :: 0 <= i < |ps| ==> Separator !in ps[i].key && Separator !in ps[i].value
    ensures forall k :: k in ParseTxt(Entries(ps)) ==> exists i :: 0 <= i < |ps| && ps[i].key == k
  {
    var es := Entries(ps);
    forall k | k in ParseTxt(es)
      ensures exists i :: 0 <= i < |ps| && ps[i].key == k
    {
      var i :| 0 <= i < |es| && ParseEntry(es[i]).key == k;
      EntryAtParses(ps, i);
    }
  }

  lemma TxtPairsHaveKeys(ps: seq<Pair>)
    requires forall i :: 0 <= i < |ps| ==> Separator !in ps[i].key && Separator !in ps[i].value
    ensures forall i :: 0 <= i < |ps| ==> ps[i].key in ParseTxt(Entries(ps))
  {
    var es := Entries(ps);
    forall i | 0 <= i < |ps|
      ensures ps[i].key in ParseTxt(es)
    {
      EntryAtParses(ps, i);
    }
  }

  /** Round trip of a whole TXT list: the map read back holds exactly the names added. */
  lemma TxtRoundTripKeys(ps: seq<Pair>)
    requires forall i :: 0 <= i < |ps| ==> Separator !in ps[i].key && Separator !in ps[i].value
    ensures forall k :: k in ParseTxt(Entries(ps)) <==> exists i :: 0 <= i < |ps| && ps[i].key == k
  {
    TxtKeysFromPairs(ps);
    TxtPairsHaveKeys(ps);
  }

  /** Round trip of a whole TXT list: each name reads back with the value of its last addition. */
  lemma TxtRoundTripValues(ps: seq<Pair>)
    requires forall i :: 0 <= i < |ps| ==> Separator !in ps[i].key && Separator !in ps[i].value
    ensures forall i :: 0 <= i < |ps| && (forall j :: i < j < |ps| ==> ps[j].key != ps[i].key) ==>
              ps[i].key in ParseTxt(Entries(ps)) && ParseTxt(Entries(ps))[ps[i].key] == ps[i].value
  {
    var es := Entries(ps);
    forall i | 0 <= i < |ps| && (forall j :: i < j < |ps| ==> ps[j].key != ps[i].key)
      ensures ps[i].key in ParseTxt(es) && ParseTxt(es)[ps[i].key] == ps[i].value
    {
      EntryAtParses(ps, i);
      forall j | i < j < |es|
        ensures ParseEntry(es[j]).key != ParseEntry(es[i]).key
      {
        EntryAtParses(ps, j);
      }
      ParseTxtLast(es, i);
    }
  }
}
