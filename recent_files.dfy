/**
 * The panel's list of recently viewed files: a most-recently-added list of file
 * names with the time each was last seen, newest additions first, holding at most
 * fifty entries.
 */
module RecentFiles {
  import opened HistoryTypes

  /** One entry of the list: a file's base name and when it was last seen. */
  datatype RecentFile = RecentFile(name: string, timestamp: Timestamp)

  const MaxRecentFiles: nat := 50

  /** The base names in the list, in order. */
  function Names(list: seq<RecentFile>): (names: seq<string>)
    ensures |names| == |list|
    ensures forall i :: 0 <= i < |list| ==> names[i] == list[i].name
  {
    if list == [] then [] else [list[0].name] + Names(list[1..])
  }

  /** No name occurs twice. */
  ghost predicate UniqueNames(list: seq<RecentFile>) {
    forall i, j :: 0 <= i < j < |list| ==> list[i].name != list[j].name
  }

  /** `findIndex(item => item.name === name)`: the first position holding `name`, or -1. */
  function NameIndex(list: seq<RecentFile>, name: string): (k: int)
    ensures -1 <= k < |list|
    ensures k >= 0 ==> list[k].name == name && forall j :: 0 <= j < k ==> list[j].name != name
    ensures k == -1 <==> name !in Names(list)
  {
    if list == [] then -1
    else if list[0].name == name then 0
    else
      var k := NameIndex(list[1..], name);
      if k < 0 then -1 else k + 1
  }

  /**
   * `addToHistory(name)` at time `now`: a name already listed keeps its place and gets
   * the new time; a new name goes to the front and the list is cut to fifty entries.
   */
  function Touch(list: seq<RecentFile>, name: string, now: Timestamp): (touched: seq<RecentFile>)
    ensures |list| <= MaxRecentFiles ==> |touched| <= MaxRecentFiles
    ensures name in Names(touched)
  {
    var k := NameIndex(list, name);
    if k >= 0 then
      var touched := list[k := list[k].(timestamp := now)];
      assert Names(touched)[k] == name;
      touched
    else
      var grown := [RecentFile(name, now)] + list;
      var touched := if |grown| > MaxRecentFiles then grown[..MaxRecentFiles] else grown;
      assert Names(touched)[0] == name;
      touched
  }

  /** A listed name keeps the length and the order; only that entry's time changes. */
  lemma TouchListed(list: seq<RecentFile>, name: string, now: Timestamp)
    requires name in Names(list)
    ensures |Touch(list, name, now)| == |list|
    ensures Names(Touch(list, name, now)) == Names(list)
    ensures Touch(list, name, now)[NameIndex(list, name)] == RecentFile(name, now)
    ensures forall i :: 0 <= i < |list| && i != NameIndex(list, name) ==> Touch(list, name, now)[i] == list[i]
  {
    var r := Touch(list, name, now);
    assert forall i :: 0 <= i < |list| ==> Names(r)[i] == Names(list)[i];
  }

  /**
   * A new name is put at the front and the earlier entries move back by one place; the
   * entry that would be the fifty-first is dropped.
   */
  lemma TouchUnlisted(list: seq<RecentFile>, name: string, now: Timestamp)
    requires name !in Names(list)
    ensures Touch(list, name, now)[0] == RecentFile(name, now)
    ensures |Touch(list, name, now)| == if |list| < MaxRecentFiles then |list| + 1 else MaxRecentFiles
    ensures forall i :: 1 <= i < |Touch(list, name, now)| ==> Touch(list, name, now)[i] == list[i - 1]
  {
  }

  /** Unique names stay unique. */
  lemma TouchKeepsUnique(list: seq<RecentFile>, name: string, now: Timestamp)
    requires UniqueNames(list)
    ensures UniqueNames(Touch(list, name, now))
  {
    var r := Touch(list, name, now);
    if name in Names(list) {
      TouchListed(list, name, now);
      forall i, j | 0 <= i < j < |r| ensures r[i].name != r[j].name {
        assert r[i].name == Names(r)[i] == Names(list)[i] == list[i].name;
        assert r[j].name == Names(r)[j] == Names(list)[j] == list[j].name;
      }
    } else {
      forall i, j | 0 <= i < j < |r| ensures r[i].name != r[j].name {
        if i == 0 {
          assert Names(list)[j - 1] == list[j - 1].name;
        } else {
          assert r[i] == list[i - 1] && r[j] == list[j - 1];
        }
      }
    }
  }

  /** Touching the same name twice at the same time is touching it once. */
  lemma TouchIdempotent(list: seq<RecentFile>, name: string, now: Timestamp)
    ensures Touch(Touch(list, name, now), name, now) == Touch(list, name, now)
  {
    var r := Touch(list, name, now);
    if name in Names(list) {
      TouchListed(list, name, now);
      var k := NameIndex(list, name);
      assert Names(r) == Names(list);
      forall j | 0 <= j < k ensures r[j].name != name {
        assert r[j].name == Names(r)[j] == Names(list)[j] == list[j].name;
      }
      assert NameIndex(r, name) == k;
    } else {
      assert r[0].name == name;
      assert NameIndex(r, name) == 0;
    }
  }
}
