/** `ValidatePatch`: bounded depth and no blank keys, and what that means for the stored twins. */
module TwinValidation {
  import opened Sequences
  import opened TwinState
  import opened TwinService
  import Strings

  /** The tree has at most this many levels; a scalar has one. */
  predicate Shallow(v: Value, levels: int)
    decreases v
  {
    levels >= 1
    && match v
       case Object(fields) => forall k :: k in fields ==> Shallow(fields[k], levels - 1)
       case Array(items) => forall i :: 0 <= i < |items| ==> Shallow(items[i], levels - 1)
       case _ => true
  }

  predicate Blank(key: string) { Strings.TrimSpace(key) == "" }

  predicate NamedKeys(v: Value)
    decreases v
  {
    match v
    case Object(fields) => forall k :: k in fields ==> !Blank(k) && NamedKeys(fields[k])
    case Array(items) => forall i :: 0 <= i < |items| ==> NamedKeys(items[i])
    case _ => true
  }

  /** Up to ten levels unless told otherwise. */
  function Levels(maxDepth: int): int { if maxDepth <= 0 then 10 else maxDepth }

  predicate Acceptable(f: Fields, maxDepth: int) {
    Shallow(Object(f), Levels(maxDepth)) && NamedKeys(Object(f))
  }

  /** A key is blank if it has no character but spaces. */
  lemma BlankIffAllSpace(key: string)
    ensures Blank(key) <==> forall i :: 0 <= i < |key| ==> Strings.IsSpace(key[i])
  {
    var before, after := Strings.TrimSpaceTrims(key);
    var t := Strings.TrimSpace(key);
    if t != [] {
      assert key[|before|] == t[0];
    } else {
      assert key == before + after;
    }
  }

  /** A way into a tree. */
  datatype Turn = Key(key: string) | Index(index: nat)

  ghost predicate Leads(v: Value, turns: seq<Turn>)
    decreases |turns|
  {
    turns == []
    || match turns[0]
       case Key(k) => v.Object? && k in v.fields && Leads(v.fields[k], turns[1..])
       case Index(i) => v.Array? && i < |v.items| && Leads(v.items[i], turns[1..])
  }

  /** The depth of a tree is that of its longest way in. */
  lemma {:induction false} ShallowIffNoLongWay(v: Value, levels: nat)
    ensures Shallow(v, levels) <==> forall turns :: Leads(v, turns) ==> |turns| < levels
    decreases v
  {
    if Shallow(v, levels) {
      forall turns | Leads(v, turns) ensures |turns| < levels {
        WayIsShort(v, levels, turns);
      }
    } else {
      var turns := LongWay(v, levels);
    }
  }

  lemma {:induction false} WayIsShort(v: Value, levels: nat, turns: seq<Turn>)
    requires Shallow(v, levels) && Leads(v, turns)
    ensures |turns| < levels
    decreases |turns|
  {
    if turns != [] {
      match turns[0]
      case Key(k) => WayIsShort(v.fields[k], levels - 1, turns[1..]);
      case Index(i) => WayIsShort(v.items[i], levels - 1, turns[1..]);
    }
  }

  lemma {:induction false} LongWay(v: Value, levels: nat) returns (turns: seq<Turn>)
    requires !Shallow(v, levels)
    ensures Leads(v, turns) && |turns| >= levels
    decreases v
  {
    turns := [];
    if levels > 0 {
      match v
      case Object(fields) =>
        var k :| k in fields && !Shallow(fields[k], levels - 1);
        var rest := LongWay(fields[k], levels - 1);
        turns := [Key(k)] + rest;
      case Array(items) =>
        var i :| 0 <= i < |items| && !Shallow(items[i], levels - 1);
        var rest := LongWay(items[i], levels - 1);
        turns := [Index(i)] + rest;
      case _ =>
    }
  }

  /** What an acceptable patch is: at most as many levels as asked for, ten if nothing sensible is. */
  lemma AcceptableMeans(f: Fields, maxDepth: int)
    ensures Acceptable(f, maxDepth) <==>
            NamedKeys(Object(f))
            && forall turns :: Leads(Object(f), turns) ==> |turns| < if maxDepth > 0 then maxDepth else 10
  {
    ShallowIffNoLongWay(Object(f), if maxDepth > 0 then maxDepth else 10);
  }

  method ValidatePatch(patch: Fields, maxDepth: int) returns (ok: bool)
    ensures ok <==> Acceptable(patch, maxDepth)
  {
    var levels := maxDepth;
    if levels <= 0 {
      levels := 10;
    }
    ok := Walk(Object(patch), 1, levels);
  }

  /** The walk stops at the first offence, wherever the map iteration happens to find it. */
  method Walk(v: Value, depth: int, maxDepth: int) returns (ok: bool)
    ensures ok <==> Shallow(v, maxDepth - depth + 1) && NamedKeys(v)
    decreases v
  {
    if depth > maxDepth {
      return false;
    }
    match v {
      case Object(fields) =>
        var todo := fields.Keys;
        while todo != {}
          invariant todo <= fields.Keys
          invariant forall k :: k in fields && k !in todo ==>
                      !Blank(k) && NamedKeys(fields[k]) && Shallow(fields[k], maxDepth - depth)
        {
          var key :| key in todo;
          if Strings.TrimSpace(key) == "" {
            return false;
          }
          var child := Walk(fields[key], depth + 1, maxDepth);
          if !child {
            return false;
          }
          todo := todo - {key};
        }
        ok := true;
      case Array(items) =>
        for i := 0 to |items|
          invariant forall j :: 0 <= j < i ==> NamedKeys(items[j]) && Shallow(items[j], maxDepth - depth)
        {
          var child := Walk(items[i], depth + 1, maxDepth);
          if !child {
            return false;
          }
        }
        ok := true;
      case _ => ok := true;
    }
  }

  /** Merging acceptable trees gives an acceptable tree: depth does not add up. */
  lemma {:induction false} MergeStaysAcceptable(a: Value, b: Value, levels: int)
    requires Shallow(a, levels) && NamedKeys(a) && Shallow(b, levels) && NamedKeys(b)
    ensures Shallow(MergeValue(a, b), levels) && NamedKeys(MergeValue(a, b))
    decreases b
  {
    if a.Object? && b.Object? {
      forall k | k in a.fields && k in b.fields
        ensures Shallow(MergeValue(a.fields[k], b.fields[k]), levels - 1)
             && NamedKeys(MergeValue(a.fields[k], b.fields[k]))
      {
        MergeStaysAcceptable(a.fields[k], b.fields[k], levels - 1);
      }
    }
  }

  /** Every patch in the run has passed validation. */
  ghost predicate Validated(calls: seq<(Call, Time)>) {
    forall c :: c in calls ==> (c.0.UpdateDesired? || c.0.UpdateReported?) ==> Acceptable(c.0.patch, 10)
  }

  /** As long as every patch is validated, no run of updates, however long, builds a twin that
      validation would refuse. */
  lemma {:induction false} TwinsStayAcceptable(calls: seq<(Call, Time)>, deviceId: string)
    requires Validated(calls) && deviceId in Run(calls)
    ensures Acceptable(Run(calls)[deviceId].desiredState, 10) && Acceptable(Run(calls)[deviceId].reportedState, 10)
  {
    var before, c := calls[..|calls| - 1], Last(calls);
    SplitLast(calls);
    if deviceId in Run(before) {
      TwinsStayAcceptable(before, deviceId);
      StepStaysAcceptable(Run(before)[deviceId].desiredState, Run(before)[deviceId].reportedState, c.0);
    } else {
      StepStaysAcceptable(map[], map[], c.0);
    }
  }

  lemma StepStaysAcceptable(desired: Fields, reported: Fields, call: Call)
    requires Acceptable(desired, 10) && Acceptable(reported, 10)
    requires (call.UpdateDesired? || call.UpdateReported?) ==> Acceptable(call.patch, 10)
    ensures call.UpdateDesired? ==> Acceptable(Merge(desired, call.patch), 10)
    ensures call.UpdateReported? ==> Acceptable(Merge(reported, call.patch), 10)
  {
    if call.UpdateDesired? {
      MergeStaysAcceptable(Object(desired), Object(call.patch), 10);
    } else if call.UpdateReported? {
      MergeStaysAcceptable(Object(reported), Object(call.patch), 10);
    }
  }
}
