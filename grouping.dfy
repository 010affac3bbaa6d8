/**
 * The fallback of compress_pdf_group.py when the whole bundle is too large:
 * documents are paired positionally with the flattened entry titles and
 * grouped under the section holding that title (`group_pdfs_by_structure`),
 * then one task per section is scheduled, largest group first (`main`).
 */
module Grouping {
  import opened Wrappers
  import opened Toc
  import opened Outline
  import opened Sorting

  /** The first section whose entries contain `t` — where the inner loop breaks. */
  function FirstSection(structure: seq<Section>, t: string): (r: Option<nat>)
    ensures r.Some? ==> r.value < |structure| && t in structure[r.value].entries
    ensures r.Some? ==> forall k :: 0 <= k < r.value ==> t !in structure[k].entries
    ensures r.None? ==> forall k :: 0 <= k < |structure| ==> t !in structure[k].entries
  {
    if structure == [] then None
    else if t in structure[0].entries then Some(0)
    else
      match FirstSection(structure[1..], t)
      case None => None
      case Some(k) => Some(k + 1)
  }

  /** One pass of the outer loop: `groups[section].append(pdf)` for the first section holding `t`. */
  function Assign(groups: map<string, seq<string>>, structure: seq<Section>, pdf: string, t: string): map<string, seq<string>>
  {
    match FirstSection(structure, t)
    case None => groups
    case Some(k) =>
      var s := structure[k].title;
      groups[s := (if s in groups then groups[s] else []) + [pdf]]
  }

  /** The groups after the loop over `zip(pdfs, titles)`. */
  function GroupsOf(pdfs: seq<string>, titles: seq<string>, structure: seq<Section>): map<string, seq<string>>
    decreases |pdfs|
  {
    var n := Min(|pdfs|, |titles|);
    if n == 0 then map[]
    else Assign(GroupsOf(pdfs[..n - 1], titles[..n - 1], structure), structure, pdfs[n - 1], titles[n - 1])
  }

  /** Whether title `t` is filed under the section titled `s`. */
  predicate FiledUnder(structure: seq<Section>, t: string, s: string)
  {
    var k := FirstSection(structure, t);
    k.Some? && structure[k.value].title == s
  }

  /**
   * Reference definition of one group: the documents among the first
   * `min(|pdfs|, |titles|)` whose paired title is filed under `s`, in order.
   */
  function Members(pdfs: seq<string>, titles: seq<string>, structure: seq<Section>, s: string): seq<string>
    decreases |pdfs|
  {
    var n := Min(|pdfs|, |titles|);
    if n == 0 then []
    else
      Members(pdfs[..n - 1], titles[..n - 1], structure, s)
      + (if FiledUnder(structure, titles[n - 1], s) then [pdfs[n - 1]] else [])
  }

  /** A group exists exactly when it has members, and then it holds them in document order. */
  lemma {:induction false} GroupsAreMembers(pdfs: seq<string>, titles: seq<string>, structure: seq<Section>, s: string)
    ensures s in GroupsOf(pdfs, titles, structure) <==> Members(pdfs, titles, structure, s) != []
    ensures s in GroupsOf(pdfs, titles, structure) ==> GroupsOf(pdfs, titles, structure)[s] == Members(pdfs, titles, structure, s)
    decreases |pdfs|
  {
    var n := Min(|pdfs|, |titles|);
    if n > 0 {
      GroupsAreMembers(pdfs[..n - 1], titles[..n - 1], structure, s);
    }
  }

  /** Every document that appears in some group. */
  function Used(groups: map<string, seq<string>>): set<string>
  {
    set s, p | s in groups && p in groups[s] :: p
  }

  lemma UsedAssign(groups: map<string, seq<string>>, structure: seq<Section>, pdf: string, t: string)
    ensures Used(Assign(groups, structure, pdf, t))
         == Used(groups) + (if FirstSection(structure, t).Some? then {pdf} else {})
  {
    var g' := Assign(groups, structure, pdf, t);
    if FirstSection(structure, t).Some? {
      var s := structure[FirstSection(structure, t).value].title;
      forall p | p in Used(groups) ensures p in Used(g') {
        var s0 :| s0 in groups && p in groups[s0];
        assert p in g'[s0];
      }
      assert pdf in g'[s];
      forall p | p in Used(g') ensures p in Used(groups) || p == pdf {
        var s0 :| s0 in g' && p in g'[s0];
        if s0 == s && p != pdf && s in groups {
          assert p in groups[s];
        }
      }
    }
  }

  /** A document is grouped iff one of the first `n` positions holds it and its title is found. */
  lemma {:induction false} UsedAreThePaired(pdfs: seq<string>, titles: seq<string>, structure: seq<Section>, p: string)
    ensures var n := Min(|pdfs|, |titles|);
      (p in Used(GroupsOf(pdfs, titles, structure))
       <==> exists i :: 0 <= i < n && pdfs[i] == p && FirstSection(structure, titles[i]).Some?)
    decreases |pdfs|
  {
    var n := Min(|pdfs|, |titles|);
    if n > 0 {
      var ps, ts := pdfs[..n - 1], titles[..n - 1];
      UsedAreThePaired(ps, ts, structure, p);
      UsedAssign(GroupsOf(ps, ts, structure), structure, pdfs[n - 1], titles[n - 1]);
      assert Min(|ps|, |ts|) == n - 1;
      if exists i :: 0 <= i < n && pdfs[i] == p && FirstSection(structure, titles[i]).Some? {
        var i :| 0 <= i < n && pdfs[i] == p && FirstSection(structure, titles[i]).Some?;
        if i < n - 1 {
          assert ps[i] == p && ts[i] == titles[i];
        }
      }
      if exists i :: 0 <= i < n - 1 && ps[i] == p && FirstSection(structure, ts[i]).Some? {
        var i :| 0 <= i < n - 1 && ps[i] == p && FirstSection(structure, ts[i]).Some?;
        assert pdfs[i] == p && titles[i] == ts[i];
      }
    }
  }

  lemma GroupsOfSnoc(pdfs: seq<string>, titles: seq<string>, structure: seq<Section>, i: nat)
    requires i < |pdfs| && i < |titles|
    ensures GroupsOf(pdfs[..i + 1], titles[..i + 1], structure)
         == Assign(GroupsOf(pdfs[..i], titles[..i], structure), structure, pdfs[i], titles[i])
  {
    assert pdfs[..i + 1][..i] == pdfs[..i] && titles[..i + 1][..i] == titles[..i];
  }

  lemma GroupsOfPrefix(pdfs: seq<string>, titles: seq<string>, structure: seq<Section>)
    ensures var n := Min(|pdfs|, |titles|);
      GroupsOf(pdfs, titles, structure) == GroupsOf(pdfs[..n], titles[..n], structure)
  {
    var n := Min(|pdfs|, |titles|);
    if n > 0 {
      assert pdfs[..n][..n - 1] == pdfs[..n - 1] && titles[..n][..n - 1] == titles[..n - 1];
    }
  }

  /** The section found by scanning up to `k` is the first one holding `t`. */
  lemma FirstSectionAt(structure: seq<Section>, t: string, k: nat)
    requires k < |structure| && t in structure[k].entries
    requires forall j :: 0 <= j < k ==> t !in structure[j].entries
    ensures FirstSection(structure, t) == Some(k)
  {
  }

  /** `group_pdfs_by_structure`, returning also the documents it reports as unassigned. */
  method GroupPdfsByStructure(pdfs: seq<string>, structure: seq<Section>)
    returns (groups: map<string, seq<string>>, unused: set<string>)
    ensures groups == GroupsOf(pdfs, Flatten(structure), structure)
    ensures unused == (set p | p in pdfs) - Used(groups)
  {
    var flat := Flatten(structure);
    var n := Min(|pdfs|, |flat|);
    groups := map[];
    var i := 0;
    while i < n
      invariant 0 <= i <= n
      invariant groups == GroupsOf(pdfs[..i], flat[..i], structure)
    {
      var pdf, title := pdfs[i], flat[i];
      ghost var before := groups;
      var k := 0;
      while k < |structure|
        invariant 0 <= k <= |structure|
        invariant forall j :: 0 <= j < k ==> title !in structure[j].entries
        invariant groups == before
      {
        if title in structure[k].entries {
          FirstSectionAt(structure, title, k);
          var s := structure[k].title;
          groups := groups[s := (if s in groups then groups[s] else []) + [pdf]];
          assert groups == Assign(before, structure, pdf, title);
          break;
        }
        k := k + 1;
      }
      assert groups == Assign(before, structure, pdf, title);
      GroupsOfSnoc(pdfs, flat, structure, i);
      i := i + 1;
    }
    GroupsOfPrefix(pdfs, flat, structure);
    unused := (set p | p in pdfs) - Used(groups);
  }

  /**
   * Every flattened title belongs to a section, so the documents reported
   * unassigned are exactly those past the last entry title.
   */
  lemma UnusedAreBeyondTheEntries(pdfs: seq<string>, structure: seq<Section>)
    ensures var n := Min(|pdfs|, |Flatten(structure)|);
      (set p | p in pdfs) - Used(GroupsOf(pdfs, Flatten(structure), structure))
      == (set p | p in pdfs) - (set p | p in pdfs[..n])
  {
    var flat := Flatten(structure);
    var n := Min(|pdfs|, |flat|);
    forall p ensures p in Used(GroupsOf(pdfs, flat, structure)) <==> p in pdfs[..n] {
      UsedAreThePaired(pdfs, flat, structure, p);
      if p in pdfs[..n] {
        var i :| 0 <= i < n && pdfs[..n][i] == p;
        FlattenMembers(structure, flat[i]);
        assert FirstSection(structure, flat[i]).Some?;
      }
    }
  }

  /** With at least as many entry titles as documents, no document is left unassigned. */
  lemma NothingUnusedWhenEntriesSuffice(pdfs: seq<string>, structure: seq<Section>)
    requires |Flatten(structure)| >= |pdfs|
    ensures (set p | p in pdfs) - Used(GroupsOf(pdfs, Flatten(structure), structure)) == {}
  {
    UnusedAreBeyondTheEntries(pdfs, structure);
    assert pdfs[..|pdfs|] == pdfs;
  }

  /** A compression job for one section: its documents and its title. */
  datatype Task = Task(docs: seq<string>, title: string)

  /** `tasks`: one per section (in structure order) whose title has a group. */
  function BuildTasks(groups: map<string, seq<string>>, structure: seq<Section>): (tasks: seq<Task>)
    ensures |tasks| <= |structure|
    ensures forall i :: 0 <= i < |tasks| ==> tasks[i].title in groups && tasks[i].docs == groups[tasks[i].title]
  {
    if structure == [] then []
    else
      var s := Last(structure).title;
      BuildTasks(groups, structure[..|structure| - 1]) + (if s in groups then [Task(groups[s], s)] else [])
  }

  /** No task is built exactly when no section title has a group. */
  lemma {:induction false} NoTasksIffNoGroupedSection(groups: map<string, seq<string>>, structure: seq<Section>)
    ensures BuildTasks(groups, structure) == [] <==> forall k :: 0 <= k < |structure| ==> structure[k].title !in groups
    decreases |structure|
  {
    if structure != [] {
      var front := structure[..|structure| - 1];
      NoTasksIffNoGroupedSection(groups, front);
      assert forall k :: 0 <= k < |front| ==> front[k] == structure[k];
    }
  }

  /** Task titles are the section titles that have a group, in structure order. */
  lemma {:induction false} TaskTitles(groups: map<string, seq<string>>, structure: seq<Section>)
    ensures TaskTitleSeq(BuildTasks(groups, structure)) == GroupedTitles(groups, structure)
    decreases |structure|
  {
    if structure != [] {
      TaskTitles(groups, structure[..|structure| - 1]);
      var front := BuildTasks(groups, structure[..|structure| - 1]);
      var s := Last(structure).title;
      if s in groups {
        var all := front + [Task(groups[s], s)];
        assert all[..|all| - 1] == front;
        assert TaskTitleSeq(all) == TaskTitleSeq(front) + [s];
        assert BuildTasks(groups, structure) == all;
      } else {
        assert BuildTasks(groups, structure) == front;
      }
    }
  }

  function TaskTitleSeq(tasks: seq<Task>): seq<string>
  {
    if tasks == [] then [] else TaskTitleSeq(tasks[..|tasks| - 1]) + [tasks[|tasks| - 1].title]
  }

  function GroupedTitles(groups: map<string, seq<string>>, structure: seq<Section>): seq<string>
  {
    if structure == [] then []
    else
      var s := Last(structure).title;
      GroupedTitles(groups, structure[..|structure| - 1]) + (if s in groups then [s] else [])
  }

  /** The order `tasks.sort(key=len(docs), reverse=True)` ranks by. */
  function LargerFirst(a: Task, b: Task): bool
  {
    |a.docs| >= |b.docs|
  }

  lemma LargerFirstIsTotalPreorder()
    ensures TotalPreorder(LargerFirst)
  {
  }

  function ScheduleTasks(tasks: seq<Task>): seq<Task>
  {
    SortBy(tasks, LargerFirst)
  }

  /** Those tasks with exactly `m` documents, in their order in `tasks`. */
  function OfSize(tasks: seq<Task>, m: nat): seq<Task>
  {
    if tasks == [] then []
    else (if |tasks[0].docs| == m then [tasks[0]] else []) + OfSize(tasks[1..], m)
  }

  lemma {:induction false} LevelWithIsOfSize(tasks: seq<Task>, k: Task)
    ensures LevelWith(tasks, k, LargerFirst) == OfSize(tasks, |k.docs|)
    decreases |tasks|
  {
    if tasks != [] {
      LevelWithIsOfSize(tasks[1..], k);
    }
  }

  /**
   * The schedule is the same tasks, largest group first, and tasks of equal
   * size stay in section order.
   */
  lemma ScheduleLargestFirst(tasks: seq<Task>)
    ensures multiset(ScheduleTasks(tasks)) == multiset(tasks)
    ensures forall i, j :: 0 <= i < j < |ScheduleTasks(tasks)| ==>
      |ScheduleTasks(tasks)[i].docs| >= |ScheduleTasks(tasks)[j].docs|
    ensures forall m: nat :: OfSize(ScheduleTasks(tasks), m) == OfSize(tasks, m)
  {
    LargerFirstIsTotalPreorder();
    SortBySorted(tasks, LargerFirst);
    forall m: nat ensures OfSize(ScheduleTasks(tasks), m) == OfSize(tasks, m) {
      var k := Task(seq(m, _ => ""), "");
      SortByStable(tasks, k, LargerFirst);
      LevelWithIsOfSize(tasks, k);
      LevelWithIsOfSize(ScheduleTasks(tasks), k);
    }
  }
}
