/**
  `analyzeNeighborhood`: counts the artists of the top tracks, joins the
  lower-cased artist and track names into one text and picks the first
  neighbourhood whose keywords occur in it.
 */
module Neighborhood {
  import opened Chars

  datatype Artist = Artist(name: string)
  datatype Track = Track(name: string, artists: seq<Artist>)

  /** The six neighbourhoods, in the order the source tests them. */
  datatype Hood = HipHopHeights | PopBoulevard | RockDistrict | SoulStreet | ElectronicAvenue | EclecticJunction

  /** The object handed to `setNeighborhood`. */
  datatype Card = Card(name: string, icon: string, description: string, color: string)

  function CardOf(h: Hood): (c: Card)
  {
    match h
    case HipHopHeights => Card("Hip-Hop Heights", "\U{1F3A4}",
      "You vibe with beats, bars, and culture. Your playlist is a cipher.", "from-purple-500 to-pink-500")
    case PopBoulevard => Card("Pop Boulevard", "\U{2728}",
      "Living for the hooks and melodies. Your taste is chart-topping energy.", "from-pink-500 to-rose-500")
    case RockDistrict => Card("Rock District", "\U{1F3B8}",
      "You keep it loud and real. Distortion is your language.", "from-red-500 to-orange-500")
    case SoulStreet => Card("Soul Street", "\U{1F3B7}",
      "Smooth, sophisticated, and timeless. You appreciate the classics.", "from-amber-500 to-yellow-500")
    case ElectronicAvenue => Card("Electronic Avenue", "\U{1F3A7}",
      "You live in the future. Synths and drops are your heartbeat.", "from-cyan-500 to-blue-500")
    case EclecticJunction => Card("Eclectic Junction", "\U{1F3B5}",
      "Your taste is unique and diverse. You defy categorization.", "from-indigo-500 to-purple-500")
  }

  const HipHopWords: seq<string> := ["drake", "travis", "kendrick", "kanye"]
  const PopWords: seq<string> := ["taylor", "ariana", "billie", "olivia"]
  const RockWords: seq<string> := ["rock", "metal", "punk"]
  const SoulWords: seq<string> := ["jazz", "soul", "blues"]
  const ElectronicWords: seq<string> := ["electronic", "edm", "techno"]

  /** Every keyword is a non-empty lower-case word, so it cannot match across a separating space. */
  predicate LowerWord(w: string)
  {
    |w| > 0 && forall i :: 0 <= i < |w| ==> IsLower(w[i])
  }

  predicate Keywords(ws: seq<string>)
  {
    forall k :: 0 <= k < |ws| ==> LowerWord(ws[k])
  }

  lemma KeywordListsAreWords()
    ensures Keywords(HipHopWords) && Keywords(PopWords) && Keywords(RockWords)
    ensures Keywords(SoulWords) && Keywords(ElectronicWords)
  {
  }

  /** The artists' names, track by track, in the order the two `forEach` loops visit them. */
  function ArtistNames(tracks: seq<Track>): (names: seq<string>)
    ensures |tracks| == 0 ==> names == []
  {
    if |tracks| == 0 then [] else ArtistNames(tracks[..|tracks| - 1]) + ArtistsOf(tracks[|tracks| - 1])
  }

  function ArtistsOf(t: Track): (names: seq<string>)
    ensures |names| == |t.artists|
    ensures forall j :: 0 <= j < |t.artists| ==> names[j] == t.artists[j].name
  {
    seq(|t.artists|, j requires 0 <= j < |t.artists| => t.artists[j].name)
  }

  /** `tracks.map(t => t.name)`. */
  function TrackNames(tracks: seq<Track>): (names: seq<string>)
    ensures |names| == |tracks|
    ensures forall i :: 0 <= i < |tracks| ==> names[i] == tracks[i].name
  {
    seq(|tracks|, i requires 0 <= i < |tracks| => tracks[i].name)
  }

  /** The distinct elements of `xs` in the order of their first occurrence. */
  function FirstOccurrences(xs: seq<string>): (ys: seq<string>)
    ensures forall n :: n in ys <==> n in xs
    ensures forall a, b :: 0 <= a < b < |ys| ==> ys[a] != ys[b]
  {
    if |xs| == 0 then []
    else
      var init := xs[..|xs| - 1];
      assert xs == init + [xs[|xs| - 1]];
      var ys := FirstOccurrences(init);
      if xs[|xs| - 1] in ys then ys else ys + [xs[|xs| - 1]]
  }

  /** The counting map after `names` have been counted one by one, as `artists[name] = (artists[name] || 0) + 1` does. */
  function TallyOf(names: seq<string>): (m: map<string, nat>)
  {
    if |names| == 0 then map[]
    else
      var m := TallyOf(names[..|names| - 1]);
      var n := names[|names| - 1];
      m[n := (if n in m then m[n] else 0) + 1]
  }

  /** The map has exactly the names as keys, and each maps to its number of occurrences. */
  lemma {:induction false} TallyOfCounts(names: seq<string>)
    ensures forall n :: n in TallyOf(names) <==> n in names
    ensures forall n :: n in TallyOf(names) ==> TallyOf(names)[n] == multiset(names)[n]
  {
    if |names| > 0 {
      var init := names[..|names| - 1];
      assert names == init + [names[|names| - 1]];
      TallyOfCounts(init);
    }
  }

  /** Counting one more name, and the key list it extends. */
  lemma TallyStep(seen: seq<string>, name: string)
    ensures var m := TallyOf(seen);
      TallyOf(seen + [name]) == m[name := (if name in m then m[name] else 0) + 1]
    ensures FirstOccurrences(seen + [name])
         == if name in TallyOf(seen) then FirstOccurrences(seen) else FirstOccurrences(seen) + [name]
  {
    assert (seen + [name])[..|seen|] == seen;
    TallyOfCounts(seen);
  }

  lemma PrefixStep(before: seq<string>, xs: seq<string>, j: nat)
    requires j < |xs|
    ensures before + xs[..j + 1] == (before + xs[..j]) + [xs[j]]
  {
    assert xs[..j + 1] == xs[..j] + [xs[j]];
  }

  /**
    The two nested `forEach` loops: `artists[artist.name] = (artists[artist.name] || 0) + 1`,
    with the counting object as a map and `Object.keys` as the list of keys
    in the order they were first stored.
   */
  method CountArtists(tracks: seq<Track>) returns (artists: map<string, nat>, keys: seq<string>)
    ensures artists == TallyOf(ArtistNames(tracks))
    ensures forall n :: n in artists <==> n in ArtistNames(tracks)
    ensures forall n :: n in artists ==> artists[n] == multiset(ArtistNames(tracks))[n]
    ensures keys == FirstOccurrences(ArtistNames(tracks))
  {
    artists := map[];
    keys := [];
    var i := 0;
    while i < |tracks|
      invariant 0 <= i <= |tracks|
      invariant artists == TallyOf(ArtistNames(tracks[..i]))
      invariant keys == FirstOccurrences(ArtistNames(tracks[..i]))
    {
      artists, keys := CountTrack(artists, keys, tracks[i], ArtistNames(tracks[..i]));
      assert tracks[..i + 1][..i] == tracks[..i];
      i := i + 1;
    }
    assert tracks[..i] == tracks;
    TallyOfCounts(ArtistNames(tracks));
  }

  /** The inner `forEach`: counts the artists of one track into the tally so far. */
  method CountTrack(artists0: map<string, nat>, keys0: seq<string>, track: Track, ghost seen0: seq<string>)
    returns (artists: map<string, nat>, keys: seq<string>)
    requires artists0 == TallyOf(seen0) && keys0 == FirstOccurrences(seen0)
    ensures artists == TallyOf(seen0 + ArtistsOf(track))
    ensures keys == FirstOccurrences(seen0 + ArtistsOf(track))
  {
    artists, keys := artists0, keys0;
    ghost var seen := seen0;
    var j := 0;
    while j < |track.artists|
      invariant 0 <= j <= |track.artists|
      invariant seen == seen0 + ArtistsOf(track)[..j]
      invariant artists == TallyOf(seen) && keys == FirstOccurrences(seen)
    {
      var name := track.artists[j].name;
      TallyStep(seen, name);
      PrefixStep(seen0, ArtistsOf(track), j);
      if name !in artists {
        keys := keys + [name];
      }
      artists := artists[name := (if name in artists then artists[name] else 0) + 1];
      seen := seen + [name];
      j := j + 1;
    }
    assert ArtistsOf(track)[..j] == ArtistsOf(track);
  }

  /** `text.includes(w1) || text.includes(w2) || ...`. */
  predicate Mentions(text: string, words: seq<string>)
  {
    exists k :: 0 <= k < |words| && Includes(text, words[k])
  }

  /** Some name, lower-cased, contains one of the words. */
  predicate NameMentions(names: set<string>, words: seq<string>)
  {
    exists n, k :: n in names && 0 <= k < |words| && Includes(Lower(n), words[k])
  }

  /** The `if`/`else if` chain, given which keyword lists hit. */
  function FirstHit(hits: seq<string> -> bool): (h: Hood)
  {
    if hits(HipHopWords) then HipHopHeights
    else if hits(PopWords) then PopBoulevard
    else if hits(RockWords) then RockDistrict
    else if hits(SoulWords) then SoulStreet
    else if hits(ElectronicWords) then ElectronicAvenue
    else EclecticJunction
  }

  /** The classification of the combined text, as the source performs it. */
  function Classify(allText: string): (h: Hood)
  {
    FirstHit(words => Mentions(allText, words))
  }

  /** The same classification stated on the names themselves, with no joined text. */
  function ClassifyNames(names: set<string>): (h: Hood)
  {
    FirstHit(words => NameMentions(names, words))
  }

  /** Every artist name and every track name. */
  function Vocabulary(tracks: seq<Track>): (names: set<string>)
    ensures forall n :: n in names <==> n in ArtistNames(tracks) || n in TrackNames(tracks)
  {
    (set n | n in ArtistNames(tracks)) + (set n | n in TrackNames(tracks))
  }

  /** A word occurs in the lower-cased, space-joined names exactly when it occurs in one lower-cased name. */
  lemma JoinedIncludes(xs: seq<string>, w: string)
    requires LowerWord(w)
    ensures Includes(Lower(Join(xs)), w) <==> exists n :: n in xs && Includes(Lower(n), w)
  {
    var ys := seq(|xs|, i requires 0 <= i < |xs| => Lower(xs[i]));
    LowerJoin(xs);
    IncludesJoin(ys, w);
    if exists n :: n in xs && Includes(Lower(n), w) {
      var n :| n in xs && Includes(Lower(n), w);
      var i :| 0 <= i < |xs| && xs[i] == n;
      assert Includes(ys[i], w);
    }
  }

  /**
    A keyword list hits the text `artistNames + ' ' + trackNames` exactly when
    it hits one of the names: no keyword is produced by joining two names.
   */
  lemma CombinedTextMentions(artistKeys: seq<string>, trackNames: seq<string>, words: seq<string>)
    requires Keywords(words)
    ensures Mentions(Lower(Join(artistKeys)) + " " + Lower(Join(trackNames)), words)
        <==> NameMentions((set n | n in artistKeys) + (set n | n in trackNames), words)
  {
    var text := Lower(Join(artistKeys)) + " " + Lower(Join(trackNames));
    var names := (set n | n in artistKeys) + (set n | n in trackNames);
    forall k | 0 <= k < |words|
      ensures Includes(text, words[k]) <==> exists n :: n in names && Includes(Lower(n), words[k])
    {
      IncludesAcrossSpace(Lower(Join(artistKeys)), Lower(Join(trackNames)), words[k]);
      JoinedIncludes(artistKeys, words[k]);
      JoinedIncludes(trackNames, words[k]);
    }
  }

  /**
    `analyzeNeighborhood(tracks)`: the card passed to `setNeighborhood` is the
    one for the first keyword list that some artist or track name contains,
    ignoring case.
   */
  method AnalyzeNeighborhood(tracks: seq<Track>) returns (hood: Card)
    ensures hood == CardOf(ClassifyNames(Vocabulary(tracks)))
  {
    var artists, keys := CountArtists(tracks);
    var artistNames := Lower(Join(keys));
    var trackNames := Lower(Join(TrackNames(tracks)));
    var allText := artistNames + " " + trackNames;
    hood := CardOf(Classify(allText));
    ClassifyCombinedText(keys, TrackNames(tracks));
    KeysSpanVocabulary(keys, tracks);
  }

  lemma KeysSpanVocabulary(keys: seq<string>, tracks: seq<Track>)
    requires forall n :: n in keys <==> n in ArtistNames(tracks)
    ensures (set n | n in keys) + (set n | n in TrackNames(tracks)) == Vocabulary(tracks)
  {
    var v := (set n | n in keys) + (set n | n in TrackNames(tracks));
    forall n ensures n in v <==> n in Vocabulary(tracks) {
    }
  }

  /** Classifying `artistNames + ' ' + trackNames` is classifying the names one by one. */
  lemma ClassifyCombinedText(artistKeys: seq<string>, trackNames: seq<string>)
    ensures Classify(Lower(Join(artistKeys)) + " " + Lower(Join(trackNames)))
         == ClassifyNames((set n | n in artistKeys) + (set n | n in trackNames))
  {
    KeywordListsAreWords();
    CombinedTextMentions(artistKeys, trackNames, HipHopWords);
    CombinedTextMentions(artistKeys, trackNames, PopWords);
    CombinedTextMentions(artistKeys, trackNames, RockWords);
    CombinedTextMentions(artistKeys, trackNames, SoulWords);
    CombinedTextMentions(artistKeys, trackNames, ElectronicWords);
  }

  /** The position of a neighbourhood in the chain: earlier ones take precedence. */
  function Rank(h: Hood): (r: nat)
    ensures r < 6
  {
    match h
    case HipHopHeights => 0
    case PopBoulevard => 1
    case RockDistrict => 2
    case SoulStreet => 3
    case ElectronicAvenue => 4
    case EclecticJunction => 5
  }

  /** More names can only move the result to an earlier neighbourhood of the chain. */
  lemma MoreNamesNeverLowerPrecedence(names: set<string>, more: set<string>)
    ensures Rank(ClassifyNames(names + more)) <= Rank(ClassifyNames(names))
  {
    forall words | NameMentions(names, words)
      ensures NameMentions(names + more, words)
    {
      var n, k :| n in names && 0 <= k < |words| && Includes(Lower(n), words[k]);
      assert n in names + more;
    }
  }

  /** Case is ignored: a name and its lower-cased form classify alike. */
  lemma CaseIgnored(names: set<string>)
    ensures ClassifyNames(names) == ClassifyNames(set n | n in names :: Lower(n))
  {
    var lowered := set n | n in names :: Lower(n);
    forall n | n in names
      ensures Lower(Lower(n)) == Lower(n)
    {
    }
    forall words
      ensures NameMentions(names, words) == NameMentions(lowered, words)
    {
      if NameMentions(lowered, words) {
        var m, k :| m in lowered && 0 <= k < |words| && Includes(Lower(m), words[k]);
        var n :| n in names && m == Lower(n);
        assert Includes(Lower(n), words[k]);
      }
      if NameMentions(names, words) {
        var n, k :| n in names && 0 <= k < |words| && Includes(Lower(n), words[k]);
        assert Lower(n) in lowered;
        assert Includes(Lower(Lower(n)), words[k]);
      }
    }
  }

  /** A name is among the artist names exactly when some artist of some track has it. */
  lemma {:induction false} ArtistNamesMembers(tracks: seq<Track>, n: string)
    ensures n in ArtistNames(tracks) <==>
      exists i, j :: 0 <= i < |tracks| && 0 <= j < |tracks[i].artists| && tracks[i].artists[j].name == n
  {
    if |tracks| > 0 {
      var init := tracks[..|tracks| - 1];
      var last := tracks[|tracks| - 1];
      ArtistNamesMembers(init, n);
      if n in ArtistsOf(last) {
        var j :| 0 <= j < |last.artists| && ArtistsOf(last)[j] == n;
        assert tracks[|tracks| - 1].artists[j].name == n;
      }
      if exists i, j :: 0 <= i < |tracks| && 0 <= j < |tracks[i].artists| && tracks[i].artists[j].name == n {
        var i, j :| 0 <= i < |tracks| && 0 <= j < |tracks[i].artists| && tracks[i].artists[j].name == n;
        if i < |tracks| - 1 {
          assert init[i] == tracks[i];
        } else {
          assert ArtistsOf(last)[j] == n;
        }
      }
    }
  }

  /**
    The label depends only on which tracks occur: reordering the tracks or
    repeating some of them, which changes the order of the names and the
    counts, leaves it unchanged.
   */
  lemma SameTracksSameNeighborhood(t1: seq<Track>, t2: seq<Track>)
    requires forall t :: t in t1 <==> t in t2
    ensures ClassifyNames(Vocabulary(t1)) == ClassifyNames(Vocabulary(t2))
  {
    VocabularyGrows(t1, t2);
    VocabularyGrows(t2, t1);
  }

  /** Every name of a track list is a name of any list that holds all its tracks. */
  lemma VocabularyGrows(t1: seq<Track>, t2: seq<Track>)
    requires forall t :: t in t1 ==> t in t2
    ensures Vocabulary(t1) <= Vocabulary(t2)
  {
    forall n | n in Vocabulary(t1) ensures n in Vocabulary(t2) {
      ArtistNamesMembers(t1, n);
      ArtistNamesMembers(t2, n);
      if n in ArtistNames(t1) {
        var i, j :| 0 <= i < |t1| && 0 <= j < |t1[i].artists| && t1[i].artists[j].name == n;
        assert t1[i] in t1;
        var k :| 0 <= k < |t2| && t2[k] == t1[i];
        assert t2[k].artists[j].name == n;
      } else {
        var i :| 0 <= i < |t1| && TrackNames(t1)[i] == n;
        assert t1[i] in t1;
        var k :| 0 <= k < |t2| && t2[k] == t1[i];
        assert TrackNames(t2)[k] == n;
      }
    }
  }

  /** No tracks: the text is a single space and the result is the catch-all. */
  lemma NoTracksIsEclectic()
    ensures ClassifyNames(Vocabulary([])) == EclecticJunction
  {
    assert Vocabulary([]) == {};
  }
}
