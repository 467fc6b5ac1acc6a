/** Topic names and filters: validation, levels and matching (crates/mqtt-tokio/src/router.rs). */
module Topics {
  import opened Wrappers

  /** `str::split('/')`. */
  function Split(s: string): (levels: seq<string>)
    ensures levels != []
  {
    if s == "" then [""]
    else if s[0] == '/' then [""] + Split(s[1..])
    else
      var rest := Split(s[1..]);
      [[s[0]] + rest[0]] + rest[1..]
  }

  function Join(levels: seq<string>): string
    requires levels != []
  {
    if |levels| == 1 then levels[0] else levels[0] + "/" + Join(levels[1..])
  }

  /** Levels determine the string: two filters are the same filter exactly when their levels are. */
  lemma {:induction false} JoinInvertsSplit(s: string)
    ensures Join(Split(s)) == s
  {
    if s != "" {
      JoinInvertsSplit(s[1..]);
      var rest := Split(s[1..]);
      if s[0] == '/' {
        assert Split(s)[1..] == rest;
        assert s == "/" + s[1..];
      } else {
        assert Split(s)[1..] == rest[1..];
        assert s == [s[0]] + s[1..];
      }
    }
  }

  /** Splitting is at every `/` and nowhere else. */
  lemma {:induction false} SplitsAtEverySlash(s: string)
    ensures forall i :: 0 <= i < |Split(s)| ==> '/' !in Split(s)[i]
    ensures |Split(s)| == multiset(s)['/'] + 1
  {
    if s != "" {
      SplitsAtEverySlash(s[1..]);
      assert s == [s[0]] + s[1..];
      assert multiset(s) == multiset{s[0]} + multiset(s[1..]);
    }
  }

  /** Levels without `/`, written with `/` between them, are the levels again. */
  lemma {:induction false} SplitInvertsJoin(levels: seq<string>)
    requires levels != [] && forall i :: 0 <= i < |levels| ==> '/' !in levels[i]
    ensures Split(Join(levels)) == levels
    decreases |levels|
  {
    if |levels| == 1 {
      SplitLevel(levels[0], "");
      assert levels[0] + "" == levels[0];
    } else {
      var rest := Join(levels[1..]);
      SplitInvertsJoin(levels[1..]);
      SplitLevel(levels[0], "/" + rest);
      assert ("/" + rest)[1..] == rest;
      assert Split("/" + rest) == [""] + Split(rest);
      assert levels[0] + "/" + rest == levels[0] + ("/" + rest);
      assert levels[0] + "" == levels[0];
    }
  }

  /** A level in front of the rest of a string goes into the first level of the rest. */
  lemma {:induction false} SplitLevel(level: string, rest: string)
    requires '/' !in level
    ensures Split(level + rest) == [level + Split(rest)[0]] + Split(rest)[1..]
  {
    if level == "" {
      assert level + rest == rest && "" + Split(rest)[0] == Split(rest)[0];
    } else {
      SplitLevel(level[1..], rest);
      assert (level + rest)[1..] == level[1..] + rest && level[0] in level;
      assert [level[0]] + (level[1..] + Split(rest)[0]) == level + Split(rest)[0];
    }
  }

  datatype FilterError = EmptyFilter | NullCharacter | HashNotLast | HashInsideLevel | PlusInsideLevel

  /** A wildcard fills its level, and `#` comes last. */
  predicate ValidLevels(levels: seq<string>) {
    forall i :: 0 <= i < |levels| ==>
      && (levels[i] == "#" ==> i == |levels| - 1)
      && ('#' in levels[i] ==> levels[i] == "#")
      && ('+' in levels[i] ==> levels[i] == "+")
  }

  predicate ValidFilter(filter: string) {
    filter != "" && '\0' !in filter && ValidLevels(Split(filter))
  }

  /** Every `+` fills the space between two `/` or ends of the filter, every `#` the space behind the last `/`. */
  predicate WildcardsStandAlone(filter: string) {
    forall i :: 0 <= i < |filter| ==> StandsAlone(filter, i)
  }

  predicate StandsAlone(filter: string, i: nat)
    requires i < |filter|
  {
    && (filter[i] == '+' ==> StartsLevel(filter, i) && (i == |filter| - 1 || filter[i + 1] == '/'))
    && (filter[i] == '#' ==> StartsLevel(filter, i) && i == |filter| - 1)
  }

  predicate IsWildcard(c: char) {
    c == '+' || c == '#'
  }

  predicate StartsLevel(filter: string, i: nat)
    requires i < |filter|
  {
    i == 0 || filter[i - 1] == '/'
  }

  /** The rule on levels, read off the characters of the filter. */
  lemma ValidFilterIff(filter: string)
    ensures ValidFilter(filter) <==> filter != "" && '\0' !in filter && WildcardsStandAlone(filter)
  {
    JoinInvertsSplit(filter);
    SplitsAtEverySlash(filter);
    LevelsStandAlone(Split(filter));
  }

  lemma {:induction false} LevelsStandAlone(levels: seq<string>)
    requires levels != [] && forall i :: 0 <= i < |levels| ==> '/' !in levels[i]
    ensures ValidLevels(levels) <==> WildcardsStandAlone(Join(levels))
    decreases |levels|
  {
    var level, rest := levels[0], levels[1..];
    ValidLevelsStep(levels);
    if rest == [] {
      LastLevel(level);
    } else {
      LevelsStandAlone(rest);
      FirstLevel(level, Join(rest));
    }
  }

  predicate LevelIsValid(level: string, last: bool) {
    && ('#' in level ==> level == "#" && last)
    && ('+' in level ==> level == "+")
  }

  lemma ValidLevelsStep(levels: seq<string>)
    requires levels != []
    ensures ValidLevels(levels)
       <==> LevelIsValid(levels[0], |levels| == 1) && (|levels| > 1 ==> ValidLevels(levels[1..]))
  {
    if LevelIsValid(levels[0], |levels| == 1) && (|levels| > 1 ==> ValidLevels(levels[1..])) {
      forall i | 0 <= i < |levels| ensures LevelIsValid(levels[i], i == |levels| - 1) {
        assert i > 0 ==> levels[i] == levels[1..][i - 1];
        assert '#' in "#";
      }
    }
    if ValidLevels(levels) {
      forall i | 0 <= i < |levels| - 1 ensures LevelIsValid(levels[1..][i], i == |levels| - 2) {
        assert levels[1..][i] == levels[i + 1];
      }
    }
  }

  lemma LastLevel(level: string)
    requires '/' !in level
    ensures LevelIsValid(level, true) <==> WildcardsStandAlone(level)
  {
    if LevelIsValid(level, true) {
      forall i | 0 <= i < |level| && IsWildcard(level[i]) ensures |level| == 1 {
        assert level[i] in level;
      }
    } else {
      var c := if '#' in level && level != "#" then '#' else '+';
      var i :| 0 <= i < |level| && level[i] == c;
      assert i > 0 ==> level[i - 1] in level;
      assert i < |level| - 1 ==> level[i + 1] in level;
      assert |level| == 1 ==> level == [c];
      assert !StandsAlone(level, i);
    }
  }

  lemma FirstLevel(level: string, rest: string)
    requires '/' !in level
    ensures WildcardsStandAlone(level + "/" + rest) <==> LevelIsValid(level, false) && WildcardsStandAlone(rest)
  {
    var s, n := level + "/" + rest, |level|;
    assert forall i :: 0 <= i < n ==> s[i] == level[i] && s[i] in level && s[i] != '/';
    assert s[n] == '/';
    assert forall i :: 0 <= i < |rest| ==> s[n + 1 + i] == rest[i];
    if WildcardsStandAlone(s) {
      forall i | 0 <= i < n && IsWildcard(level[i]) ensures level == "+" {
        assert StandsAlone(s, i);
      }
      forall i | 0 <= i < |rest| ensures StandsAlone(rest, i) {
        assert StandsAlone(s, n + 1 + i);
      }
    }
    if LevelIsValid(level, false) && WildcardsStandAlone(rest) {
      forall i | 0 <= i < |s| ensures StandsAlone(s, i) {
        if i > n {
          assert StandsAlone(rest, i - n - 1);
        } else if i < n && IsWildcard(s[i]) {
          assert level == "+";
        }
      }
    }
  }

  method ValidateTopicFilter(filter: string) returns (r: Result<(), FilterError>)
    ensures r.Success? <==> ValidFilter(filter)
    ensures r == Failure(EmptyFilter) <==> filter == ""
    ensures r == Failure(NullCharacter) <==> filter != "" && '\0' in filter
  {
    if filter == "" {
      return Failure(EmptyFilter);
    }
    if '\0' in filter {
      return Failure(NullCharacter);
    }
    var levels := Split(filter);
    for i := 0 to |levels|
      invariant forall k :: 0 <= k < i ==>
        && (levels[k] == "#" ==> k == |levels| - 1)
        && ('#' in levels[k] ==> levels[k] == "#")
        && ('+' in levels[k] ==> levels[k] == "+")
    {
      var level := levels[i];
      if level == "#" {
        if i != |levels| - 1 {
          return Failure(HashNotLast);
        }
        assert '+' !in level;
      } else if '#' in level {
        return Failure(HashInsideLevel);
      } else if '+' in level && level != "+" {
        return Failure(PlusInsideLevel);
      }
    }
    return Success(());
  }

  // ---- Matching (section 4.7.1 of MQTT 3.1.1) ----

  predicate LevelMatches(filter: string, topic: string) {
    filter == "+" || filter == topic
  }

  /** `#` stands for the parent and any number of levels below it; otherwise level by level. */
  predicate Matches(filter: seq<string>, topic: seq<string>) {
    if filter != [] && filter[|filter| - 1] == "#" then
      |filter| - 1 <= |topic| && forall i :: 0 <= i < |filter| - 1 ==> LevelMatches(filter[i], topic[i])
    else
      |filter| == |topic| && forall i :: 0 <= i < |filter| ==> LevelMatches(filter[i], topic[i])
  }

  /** A `#` in the filter is its last level. */
  predicate HashIsLast(filter: seq<string>) {
    forall i :: 0 <= i < |filter| && filter[i] == "#" ==> i == |filter| - 1
  }

  /** Matching one level at a time. */
  lemma MatchesStep(filter: seq<string>, topic: seq<string>)
    requires HashIsLast(filter)
    ensures filter == [] ==> (Matches(filter, topic) <==> topic == [])
    ensures filter != [] && filter[0] == "#" ==> filter == ["#"] && Matches(filter, topic)
    ensures filter != [] && filter[0] != "#" ==>
              HashIsLast(filter[1..])
              && (Matches(filter, topic) <==>
                  topic != [] && LevelMatches(filter[0], topic[0]) && Matches(filter[1..], topic[1..]))
  {
    if filter != [] && filter[0] != "#" {
      if Matches(filter, topic) {
        StepForward(filter, topic);
      } else if topic != [] {
        StepBack(filter, topic);
      }
    }
  }

  lemma StepForward(filter: seq<string>, topic: seq<string>)
    requires HashIsLast(filter) && filter != [] && filter[0] != "#" && Matches(filter, topic)
    ensures topic != [] && LevelMatches(filter[0], topic[0]) && Matches(filter[1..], topic[1..])
  {
  }

  lemma StepBack(filter: seq<string>, topic: seq<string>)
    requires HashIsLast(filter) && filter != [] && filter[0] != "#" && topic != []
    ensures LevelMatches(filter[0], topic[0]) && Matches(filter[1..], topic[1..]) ==> Matches(filter, topic)
  {
    if LevelMatches(filter[0], topic[0]) && Matches(filter[1..], topic[1..]) {
      var last := |filter| - 1;
      if filter[last] == "#" {
        forall i | 0 <= i < last ensures LevelMatches(filter[i], topic[i]) {
          assert i > 0 ==> LevelMatches(filter[1..][i - 1], topic[1..][i - 1]);
        }
      } else {
        forall i | 0 <= i < |filter| ensures LevelMatches(filter[i], topic[i]) {
          assert i > 0 ==> LevelMatches(filter[1..][i - 1], topic[1..][i - 1]);
        }
      }
    }
  }
}
