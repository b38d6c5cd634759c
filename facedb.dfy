/**
 * The face database of the detector (`FastFaceDatabase`): parallel lists of
 * known face encodings and names, and identification of a new face by a
 * majority vote among the known entries close enough to it.
 *
 * The distance from the new face to every known encoding (numpy's
 * `linalg.norm` over the encoding matrix) is an input: `dist[i]` is the
 * distance to entry `i`, whose name is `names[i]`.
 */
module FaceDb {
  import opened Util

  /** Entries closer than this vote for their name. */
  const Tolerance: real := 0.50

  /** True when entry `i` votes for `name`. */
  predicate VotesAt(names: seq<string>, dist: seq<real>, name: string, i: nat)
    requires |names| == |dist| && i < |dist|
  {
    dist[i] < Tolerance && names[i] == name
  }

  /** The number of votes for `name` among the first `upto` entries. */
  function Votes(names: seq<string>, dist: seq<real>, name: string, upto: nat): nat
    requires |names| == |dist| && upto <= |dist|
    decreases upto
  {
    if upto == 0 then 0
    else Votes(names, dist, name, upto - 1) + (if VotesAt(names, dist, name, upto - 1) then 1 else 0)
  }

  /**
   * The entry holding the first vote for `name` among the first `upto`
   * entries (meaningful when `name` has a vote there).
   */
  function FirstVote(names: seq<string>, dist: seq<real>, name: string, upto: nat): (f: nat)
    requires |names| == |dist| && upto <= |dist|
    ensures Votes(names, dist, name, upto) > 0 ==>
              f < upto && VotesAt(names, dist, name, f) && Votes(names, dist, name, f) == 0
    decreases upto
  {
    if upto == 0 then 0
    else if Votes(names, dist, name, upto - 1) > 0 then FirstVote(names, dist, name, upto - 1)
    else upto - 1
  }

  /**
   * The keys of the `votes` dictionary after the first `upto` entries, in
   * the dictionary's insertion order: each voting name once, in the order of
   * its first vote.
   */
  function Voters(names: seq<string>, dist: seq<real>, upto: nat): seq<string>
    requires |names| == |dist| && upto <= |dist|
    decreases upto
  {
    if upto == 0 then []
    else
      var prev := Voters(names, dist, upto - 1);
      if dist[upto - 1] < Tolerance && names[upto - 1] !in prev then prev + [names[upto - 1]] else prev
  }

  /** A name is a key of `votes` exactly when it has a vote. */
  lemma {:induction false} VotersAreVoting(names: seq<string>, dist: seq<real>, upto: nat)
    requires |names| == |dist| && upto <= |dist|
    ensures forall n :: n in Voters(names, dist, upto) <==> Votes(names, dist, n, upto) > 0
    decreases upto
  {
    if upto > 0 {
      VotersAreVoting(names, dist, upto - 1);
    }
  }

  /** Each name of `order` had its first vote before the names after it. */
  ghost predicate InFirstVoteOrder(names: seq<string>, dist: seq<real>, order: seq<string>, upto: nat)
    requires |names| == |dist| && upto <= |dist|
  {
    forall j, k :: 0 <= j < k < |order| ==>
      FirstVote(names, dist, order[j], upto) < FirstVote(names, dist, order[k], upto)
  }

  /**
   * The keys of `votes` come in the order of their first votes, so the
   * dictionary's iteration order is "first seen in index order".
   */
  lemma {:induction false} VotersInFirstVoteOrder(names: seq<string>, dist: seq<real>, upto: nat)
    requires |names| == |dist| && upto <= |dist|
    ensures InFirstVoteOrder(names, dist, Voters(names, dist, upto), upto)
    decreases upto
  {
    if upto > 0 {
      var prev := Voters(names, dist, upto - 1);
      var order := Voters(names, dist, upto);
      VotersInFirstVoteOrder(names, dist, upto - 1);
      VotersAreVoting(names, dist, upto - 1);
      VotersAreVoting(names, dist, upto);
      forall j | 0 <= j < |prev|
        ensures FirstVote(names, dist, prev[j], upto) == FirstVote(names, dist, prev[j], upto - 1) < upto - 1
      {
        assert Votes(names, dist, prev[j], upto - 1) > 0;
      }
      forall j, k | 0 <= j < k < |order|
        ensures FirstVote(names, dist, order[j], upto) < FirstVote(names, dist, order[k], upto)
      {
        assert order[j] == prev[j];
        assert FirstVote(names, dist, order[j], upto) < upto - 1;
        if k < |prev| {
          assert order[k] == prev[k];
          assert FirstVote(names, dist, prev[j], upto - 1) < FirstVote(names, dist, prev[k], upto - 1);
        } else {
          var newcomer := names[upto - 1];
          assert order == prev + [newcomer] && order[k] == newcomer;
          assert Votes(names, dist, newcomer, upto - 1) == 0;
          assert FirstVote(names, dist, newcomer, upto) == upto - 1;
        }
      }
    }
  }

  /**
   * `max(votes.items(), key=count)`: the position in `order` of the first
   * name with the largest vote count (Python's `max` keeps the first of equal
   * maxima).
   */
  function LeaderIndex(order: seq<string>, names: seq<string>, dist: seq<real>): (k: nat)
    requires |order| > 0 && |names| == |dist|
    ensures k < |order|
    ensures forall j :: 0 <= j < |order| ==>
              Votes(names, dist, order[j], |dist|) <= Votes(names, dist, order[k], |dist|)
    ensures forall j :: 0 <= j < k ==>
              Votes(names, dist, order[j], |dist|) < Votes(names, dist, order[k], |dist|)
    decreases |order|
  {
    if |order| == 1 then 0
    else
      var k := LeaderIndex(order[..|order| - 1], names, dist);
      var last := |order| - 1;
      if Votes(names, dist, order[last], |dist|) > Votes(names, dist, order[k], |dist|) then last else k
  }

  /** `np.argmin`: the first position of the smallest distance. */
  function ArgMin(dist: seq<real>): (k: nat)
    requires |dist| > 0
    ensures k < |dist|
    ensures forall j :: 0 <= j < |dist| ==> dist[k] <= dist[j]
    ensures forall j :: 0 <= j < k ==> dist[k] < dist[j]
    decreases |dist|
  {
    if |dist| == 1 then 0
    else
      var k := ArgMin(dist[..|dist| - 1]);
      if dist[|dist| - 1] < dist[k] then |dist| - 1 else k
  }

  /** The result of identification: a name or None, and a confidence. */
  datatype Match = Match(name: Option<string>, confidence: real)

  /** `identify_face_fast`, given the distances to every known encoding. */
  function Identify(names: seq<string>, dist: seq<real>): (m: Match)
    requires |names| == |dist|
    ensures m.name.None? ==> m.confidence == 0.0
  {
    if |dist| == 0 then Match(None, 0.0)
    else
      var best := ArgMin(dist);
      if dist[best] < Tolerance then
        VotersAreVoting(names, dist, |dist|);
        assert Votes(names, dist, names[best], |dist|) > 0 by {
          VotePresent(names, dist, names[best], best, |dist|);
        }
        var order := Voters(names, dist, |dist|);
        Match(Some(order[LeaderIndex(order, names, dist)]), 1.0 - dist[best])
      else Match(None, 0.0)
  }

  /** A vote at entry `i` is counted by every longer prefix. */
  lemma {:induction false} VotePresent(names: seq<string>, dist: seq<real>, name: string, i: nat, upto: nat)
    requires |names| == |dist| && i < upto <= |dist|
    requires VotesAt(names, dist, name, i)
    ensures Votes(names, dist, name, upto) > 0
    decreases upto
  {
    if upto - 1 > i {
      VotePresent(names, dist, name, i, upto - 1);
    }
  }

  /**
   * The name elected by the vote: it has a vote, no name has more votes,
   * and any other name with as many votes had its first vote later.
   */
  ghost predicate IsVoteWinner(names: seq<string>, dist: seq<real>, w: string)
    requires |names| == |dist|
  {
    && Votes(names, dist, w, |dist|) > 0
    && (forall n :: Votes(names, dist, n, |dist|) <= Votes(names, dist, w, |dist|))
    && (forall n :: n != w && Votes(names, dist, n, |dist|) == Votes(names, dist, w, |dist|) ==>
          FirstVote(names, dist, w, |dist|) < FirstVote(names, dist, n, |dist|))
  }

  /** At most one name wins the vote. */
  lemma WinnerUnique(names: seq<string>, dist: seq<real>, a: string, b: string)
    requires |names| == |dist|
    requires IsVoteWinner(names, dist, a) && IsVoteWinner(names, dist, b)
    ensures a == b
  {
  }

  /** An empty database identifies nobody, with confidence 0. */
  lemma IdentifyEmpty(names: seq<string>, dist: seq<real>)
    requires |names| == |dist| == 0
    ensures Identify(names, dist) == Match(None, 0.0)
  {
  }

  /**
   * A name is returned exactly when some entry lies within the tolerance;
   * otherwise the confidence is 0.
   */
  lemma IdentifyNamesIffClose(names: seq<string>, dist: seq<real>)
    requires |names| == |dist|
    ensures Identify(names, dist).name.Some? <==> exists i :: 0 <= i < |dist| && dist[i] < Tolerance
    ensures Identify(names, dist).name.None? ==> Identify(names, dist).confidence == 0.0
  {
    if |dist| > 0 {
      var best := ArgMin(dist);
      if exists i :: 0 <= i < |dist| && dist[i] < Tolerance {
        var i :| 0 <= i < |dist| && dist[i] < Tolerance;
        assert dist[best] <= dist[i];
      }
    }
  }

  /** The confidence is one minus the smallest distance, whoever that entry belongs to. */
  lemma IdentifyConfidence(names: seq<string>, dist: seq<real>)
    requires |names| == |dist|
    ensures var m := Identify(names, dist);
            m.name.Some? ==> && (forall j :: 0 <= j < |dist| ==> m.confidence >= 1.0 - dist[j])
                             && (exists j :: 0 <= j < |dist| && m.confidence == 1.0 - dist[j])
  {
    if Identify(names, dist).name.Some? {
      var best := ArgMin(dist);
      assert Identify(names, dist).confidence == 1.0 - dist[best];
    }
  }

  /** The returned name is the winner of the vote among the entries within the tolerance. */
  lemma IdentifyElectsWinner(names: seq<string>, dist: seq<real>)
    requires |names| == |dist|
    ensures Identify(names, dist).name.Some? ==> IsVoteWinner(names, dist, Identify(names, dist).name.value)
  {
    var m := Identify(names, dist);
    if m.name.Some? {
      var order := Voters(names, dist, |dist|);
      var k := LeaderIndex(order, names, dist);
      var w := order[k];
      assert m.name.value == w;
      VotersAreVoting(names, dist, |dist|);
      VotersInFirstVoteOrder(names, dist, |dist|);
      forall n | Votes(names, dist, n, |dist|) > 0
        ensures Votes(names, dist, n, |dist|) <= Votes(names, dist, w, |dist|)
        ensures n != w && Votes(names, dist, n, |dist|) == Votes(names, dist, w, |dist|) ==>
                  FirstVote(names, dist, w, |dist|) < FirstVote(names, dist, n, |dist|)
      {
        var j :| 0 <= j < |order| && order[j] == n;
        if n != w && Votes(names, dist, n, |dist|) == Votes(names, dist, w, |dist|) {
          assert j != k;
          assert k < j;
          assert FirstVote(names, dist, order[k], |dist|) < FirstVote(names, dist, order[j], |dist|);
        }
      }
    }
  }

  /**
   * The confidence belongs to the closest entry even when the vote elects
   * another name: one close entry for "A" and two farther ones for "B"
   * elect "B" with A's confidence.
   */
  lemma ConfidenceFromClosestEntry()
    ensures Identify(["A", "B", "B"], [0.1, 0.3, 0.4]) == Match(Some("B"), 0.9)
  {
    var names, dist := ["A", "B", "B"], [0.1, 0.3, 0.4];
    assert Votes(names, dist, "B", 3) == 2;
    assert Votes(names, dist, "A", 3) == 1;
    assert Voters(names, dist, 3) == ["A", "B"];
  }

  /** The `np.argmin` scan over the distances. */
  method ClosestEntry(dist: seq<real>) returns (best: nat)
    requires |dist| > 0
    ensures best == ArgMin(dist)
  {
    best := 0;
    for i := 1 to |dist|
      invariant best == ArgMin(dist[..i])
    {
      assert dist[..i + 1][..i] == dist[..i];
      if dist[i] < dist[best] {
        best := i;
      }
    }
    assert dist[..|dist|] == dist;
  }

  /** The loop filling the `votes` dictionary from the entries within the tolerance. */
  method TallyVotes(names: seq<string>, dist: seq<real>) returns (votes: map<string, nat>, order: seq<string>)
    requires |names| == |dist|
    ensures order == Voters(names, dist, |dist|)
    ensures forall n :: n in votes <==> n in order
    ensures forall n :: n in votes ==> votes[n] == Votes(names, dist, n, |dist|)
  {
    votes := map[];
    order := [];
    for i := 0 to |dist|
      invariant order == Voters(names, dist, i)
      invariant forall n :: n in votes <==> n in order
      invariant forall n :: n in votes ==> votes[n] == Votes(names, dist, n, i)
    {
      VotersAreVoting(names, dist, i);
      if dist[i] < Tolerance {
        var n := names[i];
        if n !in votes {
          order := order + [n];
          votes := votes[n := 1];
        } else {
          votes := votes[n := votes[n] + 1];
        }
      }
    }
  }

  /** `max(votes.items(), key=count)` walked in insertion order. */
  method MostVoted(order: seq<string>, votes: map<string, nat>, names: seq<string>, dist: seq<real>) returns (lead: nat)
    requires |order| > 0 && |names| == |dist|
    requires forall n :: n in order ==> n in votes && votes[n] == Votes(names, dist, n, |dist|)
    ensures lead == LeaderIndex(order, names, dist)
  {
    lead := 0;
    for j := 1 to |order|
      invariant lead == LeaderIndex(order[..j], names, dist)
    {
      assert order[..j + 1][..j] == order[..j];
      if votes[order[j]] > votes[order[lead]] {
        lead := j;
      }
    }
    assert order[..|order|] == order;
  }

  /** `identify_face_fast`: closest entry, tolerance check, vote, and confidence. */
  method IdentifyFast(names: seq<string>, dist: seq<real>) returns (name: Option<string>, confidence: real)
    requires |names| == |dist|
    ensures Match(name, confidence) == Identify(names, dist)
  {
    if |dist| == 0 {
      return None, 0.0;
    }
    var best := ClosestEntry(dist);
    if !(dist[best] < Tolerance) {
      return None, 0.0;
    }
    var votes, order := TallyVotes(names, dist);
    VotersAreVoting(names, dist, |dist|);
    VotePresent(names, dist, names[best], best, |dist|);
    var lead := MostVoted(order, votes, names, dist);
    name := Some(order[lead]);
    confidence := 1.0 - dist[best];
  }

  /** One row of the remote `familiar_faces` table. */
  datatype FaceRow = FaceRow(name: string, encoding: seq<real>)

  function RowNames(rows: seq<FaceRow>): (ns: seq<string>)
    ensures |ns| == |rows| && forall i :: 0 <= i < |rows| ==> ns[i] == rows[i].name
  {
    seq(|rows|, i requires 0 <= i < |rows| => rows[i].name)
  }

  function RowEncodings(rows: seq<FaceRow>): (es: seq<seq<real>>)
    ensures |es| == |rows| && forall i :: 0 <= i < |rows| ==> es[i] == rows[i].encoding
  {
    seq(|rows|, i requires 0 <= i < |rows| => rows[i].encoding)
  }

  /** How many rows of the table carry the name `n`. */
  function RowCount(rows: seq<FaceRow>, n: string): nat
    decreases |rows|
  {
    if rows == [] then 0 else (if rows[0].name == n then 1 else 0) + RowCount(rows[1..], n)
  }

  /**
   * As written, a load from the remote table appends its rows to the names
   * already held (`LoadDatabase`): a name is never dropped by a later load,
   * and after two loads of the same rows every name is held as often as
   * before plus twice per row that carries it, which doubles its votes.
   */
  lemma LoadNeverDrops(held: seq<string>, rows: seq<FaceRow>, n: string)
    ensures var twice := held + RowNames(rows) + RowNames(rows);
            && (n in held ==> n in twice)
            && multiset(twice)[n] == multiset(held)[n] + 2 * RowCount(rows, n)
  {
    ReloadMirrorsTable(rows, n);
  }

  /**
   * The input that shows it: "A" was loaded at start-up, then deleted from
   * the remote table; the periodic reload returns only "B", yet "A" is still
   * held and a face close to A's encoding is still identified as "A".
   */
  lemma DeletedFaceStillIdentified()
    ensures var held := RowNames([FaceRow("A", [0.0])]) + RowNames([FaceRow("B", [1.0])]);
            held == ["A", "B"] && Identify(held, [0.1, 0.9]) == Match(Some("A"), 0.9)
  {
    var held := ["A", "B"];
    assert Votes(held, [0.1, 0.9], "A", 2) == 1;
    assert Voters(held, [0.1, 0.9], 2) == ["A"];
  }

  /**
   * After a replacing load the names held mirror the table: each name is
   * held exactly as often as rows carry it, so it is held at all exactly
   * when some row carries it.
   */
  lemma {:induction false} ReloadMirrorsTable(rows: seq<FaceRow>, n: string)
    ensures multiset(RowNames(rows))[n] == RowCount(rows, n)
    ensures n in RowNames(rows) <==> RowCount(rows, n) > 0
    decreases |rows|
  {
    if rows != [] {
      ReloadMirrorsTable(rows[1..], n);
      assert RowNames(rows) == [rows[0].name] + RowNames(rows[1..]);
    }
  }

  /** An identified name is always one of the names held. */
  lemma IdentifiedNameIsHeld(names: seq<string>, dist: seq<real>)
    requires |names| == |dist|
    ensures Identify(names, dist).name.Some? ==> Identify(names, dist).name.value in names
  {
    var m := Identify(names, dist);
    if m.name.Some? {
      IdentifyElectsWinner(names, dist);
      var f := FirstVote(names, dist, m.name.value, |dist|);
      assert names[f] == m.name.value;
    }
  }

  /**
   * With the lists mirroring the table, a name that has no row any more is
   * never identified, whatever the distances.
   */
  lemma ReloadForgetsDeleted(rows: seq<FaceRow>, dist: seq<real>, n: string)
    requires |dist| == |rows|
    requires forall i :: 0 <= i < |rows| ==> rows[i].name != n
    ensures Identify(RowNames(rows), dist).name != Some(n)
  {
    IdentifiedNameIsHeld(RowNames(rows), dist);
  }

  /**
   * Where `load_database` takes its rows from: the remote table when it
   * returned at least one row, else the local file when it exists.
   */
  function LoadSource(remote: Option<seq<FaceRow>>, local: Option<seq<FaceRow>>): (r: Option<seq<FaceRow>>)
    ensures remote.Some? && |remote.value| > 0 ==> r == remote
    ensures (remote.None? || |remote.value| == 0) ==> r == local
  {
    if remote.Some? && |remote.value| > 0 then remote else local
  }

  /** `FastFaceDatabase`: the parallel lists of known encodings and names. */
  class FastFaceDatabase {
    var knownNames: seq<string>
    var knownEncodings: seq<seq<real>>

    ghost predicate Valid()
      reads this
    {
      |knownNames| == |knownEncodings|
    }

    /**
     * A new database starts empty and loads at once: `remote` is what the
     * `familiar_faces` query returned (None without a client, without a user
     * id or when the query raised), `local` the pickled lists (None when the
     * file does not exist).
     */
    constructor (remote: Option<seq<FaceRow>>, local: Option<seq<FaceRow>>)
      ensures Valid()
      ensures LoadSource(remote, local).Some? ==>
                knownNames == RowNames(LoadSource(remote, local).value)
                && knownEncodings == RowEncodings(LoadSource(remote, local).value)
      ensures LoadSource(remote, local).None? ==> knownNames == [] && knownEncodings == []
    {
      knownNames := [];
      knownEncodings := [];
      new;
      LoadDatabase(remote, local);
    }

    /**
     * `load_database` as written: rows from the remote table are appended to
     * the lists already held; the local file replaces them; with neither the
     * lists stay as they were.
     */
    method LoadDatabase(remote: Option<seq<FaceRow>>, local: Option<seq<FaceRow>>)
      requires Valid()
      modifies this
      ensures Valid()
      ensures remote.Some? && |remote.value| > 0 ==>
                knownNames == old(knownNames) + RowNames(remote.value)
                && knownEncodings == old(knownEncodings) + RowEncodings(remote.value)
      ensures (remote.None? || |remote.value| == 0) && local.Some? ==>
                knownNames == RowNames(local.value) && knownEncodings == RowEncodings(local.value)
      ensures (remote.None? || |remote.value| == 0) && local.None? ==>
                knownNames == old(knownNames) && knownEncodings == old(knownEncodings)
    {
      if remote.Some? && |remote.value| > 0 {
        LoadRemoteRows(remote.value);
        return;
      }
      if local.Some? {
        knownEncodings := RowEncodings(local.value);
        knownNames := RowNames(local.value);
      }
    }

    /**
     * The periodic reload as evidently intended: whatever source is used,
     * the lists end up holding exactly its rows.
     */
    method ReloadDatabase(remote: Option<seq<FaceRow>>, local: Option<seq<FaceRow>>)
      requires Valid()
      modifies this
      ensures Valid()
      ensures LoadSource(remote, local).Some? ==>
                knownNames == RowNames(LoadSource(remote, local).value)
                && knownEncodings == RowEncodings(LoadSource(remote, local).value)
      ensures LoadSource(remote, local).None? ==>
                knownNames == old(knownNames) && knownEncodings == old(knownEncodings)
    {
      var rows := LoadSource(remote, local);
      if rows.Some? {
        ReloadRows(rows.value);
      }
    }

    /**
     * The remote branch of `load_database` as written: every row returned is
     * appended to the lists already held.
     */
    method LoadRemoteRows(rows: seq<FaceRow>)
      requires Valid()
      modifies this
      ensures Valid()
      ensures knownNames == old(knownNames) + RowNames(rows)
      ensures knownEncodings == old(knownEncodings) + RowEncodings(rows)
    {
      for i := 0 to |rows|
        invariant knownNames == old(knownNames) + RowNames(rows[..i])
        invariant knownEncodings == old(knownEncodings) + RowEncodings(rows[..i])
      {
        assert RowNames(rows[..i + 1]) == RowNames(rows[..i]) + [rows[i].name];
        assert RowEncodings(rows[..i + 1]) == RowEncodings(rows[..i]) + [rows[i].encoding];
        knownEncodings := knownEncodings + [rows[i].encoding];
        knownNames := knownNames + [rows[i].name];
      }
      assert rows[..|rows|] == rows;
    }

    /**
     * The remote branch of `load_database` as evidently intended for the
     * periodic reload: the lists are emptied first (as `build_from_folder`
     * does), so they mirror the table.
     */
    method ReloadRows(rows: seq<FaceRow>)
      modifies this
      ensures Valid()
      ensures knownNames == RowNames(rows) && knownEncodings == RowEncodings(rows)
    {
      knownEncodings := [];
      knownNames := [];
      LoadRemoteRows(rows);
    }

    /** `identify_face_fast` against the held names. */
    method IdentifyFace(dist: seq<real>) returns (m: Match)
      requires Valid() && |dist| == |knownNames|
      ensures m == Identify(knownNames, dist)
    {
      var name, confidence := IdentifyFast(knownNames, dist);
      m := Match(name, confidence);
    }
  }
}
