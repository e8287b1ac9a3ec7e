// packages/flutter-ultra-runtime/src/launchApp.ts:915-938
//
// The four ways a configuration may spell a define, among arguments of any other
// kind.
module DefineSpellings {
  import opened Collections
  import opened DartDefines

  // An argument that is about something else, or a define: with the singular or the
  // plural flag, and behind it or joined to it.
  datatype Item = Other(arg: string) | Spelled(define: Define, plural: bool, apart: bool)

  function Flag(plural: bool): string { if plural then DART_DEFINES else DART_DEFINE }

  function Spell(item: Item): seq<string>
  {
    match item
    case Other(a) => [a]
    case Spelled(d, plural, apart) =>
      var text := d.key + "=" + d.text;
      if apart then [Flag(plural), text] else [Flag(plural) + "=" + text]
  }

  predicate IsItem(item: Item)
  {
    match item
    case Other(a) => !Stray(a)
    case Spelled(d, _, _) => Printable(d)
  }

  function SpellAll(items: seq<Item>): seq<string>
  {
    if items == [] then [] else Spell(items[0]) + SpellAll(items[1..])
  }

  function DefinesIn(items: seq<Item>): seq<Define>
  {
    if items == [] then []
    else (if items[0].Spelled? then [items[0].define] else []) + DefinesIn(items[1..])
  }

  lemma ReadsJoined(d: Define, plural: bool)
    requires Printable(d)
    ensures Combined(Flag(plural) + "=" + (d.key + "=" + d.text)) == Some(d)
  {
    var text := d.key + "=" + d.text;
    var a := Flag(plural) + "=" + text;
    KeyValueRoundTrip(d.key, d.text);
    assert a[|Flag(plural)| + 1..] == text;
    if plural {
      assert a[|DART_DEFINE|] == 's' && (DART_DEFINE + "=")[|DART_DEFINE|] == '=';
    }
  }

  lemma FlagIsNotCombined(plural: bool)
    ensures Combined(Flag(plural)).None? && IsFlag(Flag(plural))
  {
    assert plural ==> DART_DEFINES[|DART_DEFINE|] == 's' && (DART_DEFINE + "=")[|DART_DEFINE|] == '=';
  }

  lemma ReadsItem(item: Item, rest: seq<string>)
    requires IsItem(item)
    ensures ReadHead(Spell(item) + rest)
         == Head(if item.Spelled? then Some(item.define) else None, |Spell(item)|)
  {
    match item
    case Other(a) => DefinesAreStray(a);
    case Spelled(d, plural, apart) =>
      if apart {
        FlagIsNotCombined(plural);
        KeyValueRoundTrip(d.key, d.text);
        assert (Spell(item) + rest)[1] == d.key + "=" + d.text;
      } else {
        ReadsJoined(d, plural);
      }
  }

  /** However its defines are spelled, and whatever stands between them, an argument
      list is read as exactly those defines, in order. */
  lemma {:induction false} AnySpelling(items: seq<Item>)
    requires forall i :: 0 <= i < |items| ==> IsItem(items[i])
    ensures Definitions(SpellAll(items)) == DefinesIn(items)
    decreases |items|
  {
    if items != [] {
      var first, rest := Spell(items[0]), SpellAll(items[1..]);
      ReadsItem(items[0], rest);
      AppendParts(first, rest);
      AnySpelling(items[1..]);
    }
  }
}
