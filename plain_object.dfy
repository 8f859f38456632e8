/**
  The counting object of `analyzeNeighborhood` as the source writes it: a
  plain `{}`, which inherits the members of `Object.prototype`. A name that
  is one of those members is not counted: `artists[name] || 0` reads the
  inherited function (or, for `__proto__`, the prototype object), and
  `+ 1` turns that into a string. Assigning the string stores it as an own
  property, except for `__proto__`, whose setter ignores it. For every other
  name the object counts exactly as the map of `Neighborhood.CountArtists`.
 */
module PlainObject {
  import Neighborhood

  /** What `artists[name]` holds: a number, or a string made by `+ 1` on a non-number. */
  datatype Slot = Count(n: nat) | Text

  /** The names an object literal inherits from `Object.prototype`. */
  const Inherited: set<string> := {
    "constructor", "hasOwnProperty", "isPrototypeOf", "propertyIsEnumerable",
    "toLocaleString", "toString", "valueOf", "__defineGetter__", "__defineSetter__",
    "__lookupGetter__", "__lookupSetter__", "__proto__"}

  /** `+ 1` on what is stored: numbers go up, strings gain a character and stay strings. */
  function Bump(s: Slot): (t: Slot)
    ensures s.Count? ==> t == Count(s.n + 1)
    ensures s.Text? ==> t == Text
  {
    match s
    case Count(n) => Count(n + 1)
    case Text => Text
  }

  /** One execution of `artists[name] = (artists[name] || 0) + 1` on the own properties `obj`. */
  function Store(obj: map<string, Slot>, name: string): (obj': map<string, Slot>)
  {
    if name in obj then obj[name := Bump(obj[name])]
    else if name == "__proto__" then obj
    else if name in Inherited then obj[name := Text]
    else obj[name := Count(1)]
  }

  /** The own properties of `artists` after the loops have visited `names`. */
  function PlainObjectCount(names: seq<string>): (obj: map<string, Slot>)
  {
    if |names| == 0 then map[] else Store(PlainObjectCount(names[..|names| - 1]), names[|names| - 1])
  }

  /** Away from the inherited names the plain object is a correct counter. */
  lemma {:induction false} PlainObjectCountsOtherNames(names: seq<string>)
    requires forall i :: 0 <= i < |names| ==> names[i] !in Inherited
    ensures forall n :: n in PlainObjectCount(names) <==> n in names
    ensures forall n :: n in PlainObjectCount(names) ==> PlainObjectCount(names)[n] == Count(multiset(names)[n])
  {
    if |names| > 0 {
      var init := names[..|names| - 1];
      assert names == init + [names[|names| - 1]];
      PlainObjectCountsOtherNames(init);
    }
  }

  /**
    The counterexample: one artist called `constructor` is stored as a string,
    not the count 1 that `CountArtists` gives, and an artist called
    `__proto__` is not stored at all, so `Object.keys` misses it.
   */
  lemma PrototypeNamesMiscounted()
    ensures var tracks := [Neighborhood.Track("Intro", [Neighborhood.Artist("constructor")])];
      && PlainObjectCount(Neighborhood.ArtistNames(tracks)) == map["constructor" := Text]
      && multiset(Neighborhood.ArtistNames(tracks))["constructor"] == 1
    ensures var tracks := [Neighborhood.Track("Intro", [Neighborhood.Artist("__proto__")])];
      && PlainObjectCount(Neighborhood.ArtistNames(tracks)) == map[]
      && Neighborhood.FirstOccurrences(Neighborhood.ArtistNames(tracks)) == ["__proto__"]
  {
    var t1 := [Neighborhood.Track("Intro", [Neighborhood.Artist("constructor")])];
    assert t1[..0] == [];
    assert Neighborhood.ArtistNames(t1) == ["constructor"];
    var t2 := [Neighborhood.Track("Intro", [Neighborhood.Artist("__proto__")])];
    assert t2[..0] == [];
    assert Neighborhood.ArtistNames(t2) == ["__proto__"];
    assert ["__proto__"][..0] == [];
  }
}
