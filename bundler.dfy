/**
 * The top level of compress_pdf_group.py: `compress_group` for one section
 * and `main` for the whole directory. The file system is abstracted into
 * three inputs: the directory listing, the content of the table-of-contents
 * file, and two oracles — the merged size of a list of documents compressed
 * at a configuration, and the page count of an original document.
 */
module Bundler {
  import opened Wrappers
  import opened Toc
  import opened Outline
  import opened Grouping
  import opened Naming
  import opened Sweep
  import opened PdfInputs
  import opened Strings

  /** A PDF the script writes: its name, the configuration whose renderings it holds, and its outline. */
  datatype Artifact = Artifact(name: string, config: Config, outline: seq<OutlineNode>)

  /** The page counts of `docs`, aligned with them. */
  function PagesOf(docs: seq<string>, pageCount: string -> nat): (pages: seq<nat>)
    ensures |pages| == |docs| && forall i :: 0 <= i < |docs| ==> pages[i] == pageCount(docs[i])
  {
    seq(|docs|, i requires 0 <= i < |docs| => pageCount(docs[i]))
  }

  /** The sections whose title is `title`, in structure order. */
  function SectionsTitled(structure: seq<Section>, title: string): (r: seq<Section>)
    ensures forall s :: s in r <==> s in structure && s.title == title
  {
    if structure == [] then []
    else (if structure[0].title == title then [structure[0]] else []) + SectionsTitled(structure[1..], title)
  }

  /** Each section bearing the title is kept as often as it occurs; no other section is kept. */
  lemma {:induction false} SectionsTitledCounts(structure: seq<Section>, title: string, s: Section)
    ensures multiset(SectionsTitled(structure, title))[s]
         == if s.title == title then multiset(structure)[s] else 0
    decreases |structure|
  {
    if structure != [] {
      SectionsTitledCounts(structure[1..], title, s);
      assert structure == [structure[0]] + structure[1..];
    }
  }

  /** Filtering the concatenation filters each part, keeping the sections in structure order. */
  lemma {:induction false} SectionsTitledAppend(a: seq<Section>, b: seq<Section>, title: string)
    ensures SectionsTitled(a + b, title) == SectionsTitled(a, title) + SectionsTitled(b, title)
    decreases |a|
  {
    if a == [] {
      assert a + b == b;
    } else {
      assert (a + b)[1..] == a[1..] + b;
      SectionsTitledAppend(a[1..], b, title);
    }
  }

  /**
   * `compress_group`: the group's output at the configuration its sweep
   * settles on, with the outline of the sections bearing its title, or
   * nothing when no configuration is valid.
   */
  function CompressGroup(docs: seq<string>, title: string, structure: seq<Section>,
                         mergedSize: (seq<string>, Config) -> nat, pageCount: string -> nat): Option<Artifact>
  {
    match GroupScan(c => mergedSize(docs, c), 0, None)
    case None => None
    case Some(c) => Some(Artifact(OutputName(title), c, OutlineOf(SectionsTitled(structure, title), docs, PagesOf(docs, pageCount))))
  }

  method CompressGroupRun(docs: seq<string>, title: string, structure: seq<Section>,
                          mergedSize: (seq<string>, Config) -> nat, pageCount: string -> nat)
    returns (out: Option<Artifact>)
    ensures out == CompressGroup(docs, title, structure, mergedSize, pageCount)
  {
    var best := CompressGroupSweep(c => mergedSize(docs, c));
    if best.Some? {
      var outline := AddOutline(SectionsTitled(structure, title), docs, PagesOf(docs, pageCount));
      out := Some(Artifact(OutputName(title), best.value, outline));
    } else {
      out := None;
    }
  }

  /**
   * A group's output is named after its title, never the bundle's name,
   * sits at the configuration its sweep picks, and its outline has one
   * parent per section bearing that title.
   */
  lemma CompressGroupOutput(docs: seq<string>, title: string, structure: seq<Section>,
                            mergedSize: (seq<string>, Config) -> nat, pageCount: string -> nat)
    ensures var size := c => mergedSize(docs, c);
      var out := CompressGroup(docs, title, structure, mergedSize, pageCount);
      && (out.None? <==> forall d :: 0 <= d < |DPI_VALUES| ==> !Fits(size, GridAt(d * 8)))
      && (out.Some? ==> out.value.name == OutputName(title) && out.value.name != OUTPUT_FILE)
      && (out.Some? ==> forall k :: 0 <= k < |out.value.outline| ==> out.value.outline[k].title == title)
  {
    GroupSweepFails(c => mergedSize(docs, c));
    OutputNameIsReadBack(title);
    var out := CompressGroup(docs, title, structure, mergedSize, pageCount);
    if out.Some? {
      var secs := SectionsTitled(structure, title);
      forall k | 0 <= k < |out.value.outline| ensures out.value.outline[k].title == title {
        OutlineParents(secs, docs, PagesOf(docs, pageCount), k);
        assert secs[k] in secs;
      }
    }
  }

  /** The outputs of the scheduled group tasks that found a valid configuration, in schedule order. */
  function GroupOutputs(tasks: seq<Task>, structure: seq<Section>,
                        mergedSize: (seq<string>, Config) -> nat, pageCount: string -> nat): seq<Artifact>
  {
    if tasks == [] then []
    else
      var t := tasks[|tasks| - 1];
      var rest := GroupOutputs(tasks[..|tasks| - 1], structure, mergedSize, pageCount);
      match CompressGroup(t.docs, t.title, structure, mergedSize, pageCount)
      case None => rest
      case Some(a) => rest + [a]
  }

  /** Every group output is named after the title of one of its tasks. */
  lemma {:induction false} GroupOutputsNamed(tasks: seq<Task>, structure: seq<Section>,
                                             mergedSize: (seq<string>, Config) -> nat, pageCount: string -> nat)
    ensures var outs := GroupOutputs(tasks, structure, mergedSize, pageCount);
      |outs| <= |tasks|
      && forall a :: a in outs ==> a.name != OUTPUT_FILE && exists t :: t in tasks && a.name == OutputName(t.title)
    decreases |tasks|
  {
    if tasks != [] {
      var front := tasks[..|tasks| - 1];
      var t := tasks[|tasks| - 1];
      GroupOutputsNamed(front, structure, mergedSize, pageCount);
      CompressGroupOutput(t.docs, t.title, structure, mergedSize, pageCount);
      forall a | a in GroupOutputs(front, structure, mergedSize, pageCount)
        ensures exists t' :: t' in tasks && a.name == OutputName(t'.title)
      {
        var t' :| t' in front && a.name == OutputName(t'.title);
        assert t' in tasks;
      }
    }
  }

  /**
   * How a run of `main` ends: the files it wrote, or the `ValueError` that
   * `Pool(min(cpu_count(), len(tasks)))` raises when regrouping finds no task.
   */
  datatype Run = Wrote(outputs: seq<Artifact>) | PoolError

  /** What `main` writes once its sweep has ended with `outcome`. */
  function Finish(outcome: MainOutcome, pdfs: seq<string>, structure: seq<Section>,
                  mergedSize: (seq<string>, Config) -> nat, pageCount: string -> nat): Run
  {
    match outcome
    case Bundled(_, rendered) => Wrote([Artifact(OUTPUT_FILE, rendered, OutlineOf(structure, pdfs, PagesOf(pdfs, pageCount)))])
    case Regroup =>
      var tasks := ScheduleTasks(BuildTasks(GroupsOf(pdfs, Flatten(structure), structure), structure));
      if tasks == [] then PoolError else Wrote(GroupOutputs(tasks, structure, mergedSize, pageCount))
    case NoOutput => Wrote([])
  }

  /**
   * `main` as written: the bundle holds the renderings present when it is
   * merged, the group outputs in schedule order, nothing, or the pool error.
   */
  function Bundle(listing: seq<string>, toc: string,
                  mergedSize: (seq<string>, Config) -> nat, pageCount: string -> nat): Run
  {
    var pdfs := GetOrderedPdfs(listing);
    Finish(MainScan(c => mergedSize(pdfs, c), 0, None), pdfs, ParseLines(Lines(toc)).structure, mergedSize, pageCount)
  }

  /** `main` with the corrected sweep. */
  function BundleFixed(listing: seq<string>, toc: string,
                       mergedSize: (seq<string>, Config) -> nat, pageCount: string -> nat): Run
  {
    var pdfs := GetOrderedPdfs(listing);
    Finish(MainScanFixed(c => mergedSize(pdfs, c), 0, None), pdfs, ParseLines(Lines(toc)).structure, mergedSize, pageCount)
  }

  /** The group tasks compressed one after the other; the process pool runs them in parallel, and this model serializes them. */
  method RunGroupTasks(tasks: seq<Task>, structure: seq<Section>,
                       mergedSize: (seq<string>, Config) -> nat, pageCount: string -> nat)
    returns (outputs: seq<Artifact>)
    ensures outputs == GroupOutputs(tasks, structure, mergedSize, pageCount)
  {
    outputs := [];
    var i := 0;
    while i < |tasks|
      invariant 0 <= i <= |tasks|
      invariant outputs == GroupOutputs(tasks[..i], structure, mergedSize, pageCount)
    {
      var out := CompressGroupRun(tasks[i].docs, tasks[i].title, structure, mergedSize, pageCount);
      assert tasks[..i + 1][..i] == tasks[..i];
      if out.Some? {
        outputs := outputs + [out.value];
      }
      i := i + 1;
    }
    assert tasks[..|tasks|] == tasks;
  }

  /** The part of `main` after its loops have ended with `outcome`. */
  method FinishRun(outcome: MainOutcome, pdfs: seq<string>, structure: seq<Section>,
                   mergedSize: (seq<string>, Config) -> nat, pageCount: string -> nat)
    returns (run: Run)
    ensures run == Finish(outcome, pdfs, structure, mergedSize, pageCount)
  {
    match outcome {
      case Bundled(_, rendered) =>
        var outline := AddOutline(structure, pdfs, PagesOf(pdfs, pageCount));
        run := Wrote([Artifact(OUTPUT_FILE, rendered, outline)]);
      case Regroup =>
        var groups, unused := GroupPdfsByStructure(pdfs, structure);
        var tasks := ScheduleTasks(BuildTasks(groups, structure));
        if tasks == [] {
          run := PoolError;
        } else {
          var outputs := RunGroupTasks(tasks, structure, mergedSize, pageCount);
          run := Wrote(outputs);
        }
      case NoOutput =>
        run := Wrote([]);
    }
  }

  /** `main` of compress_pdf_group.py as written. */
  method BundleDirectory(listing: seq<string>, toc: string,
                         mergedSize: (seq<string>, Config) -> nat, pageCount: string -> nat)
    returns (run: Run)
    ensures run == Bundle(listing, toc, mergedSize, pageCount)
  {
    var pdfs := GetOrderedPdfs(listing);
    var structure := ParseBookmarkStructure(toc);
    var outcome := MainSweep(c => mergedSize(pdfs, c));
    run := FinishRun(outcome, pdfs, structure, mergedSize, pageCount);
  }

  /** `main` with the corrected sweep. */
  method BundleDirectoryFixed(listing: seq<string>, toc: string,
                              mergedSize: (seq<string>, Config) -> nat, pageCount: string -> nat)
    returns (run: Run)
    ensures run == BundleFixed(listing, toc, mergedSize, pageCount)
  {
    var pdfs := GetOrderedPdfs(listing);
    var structure := ParseBookmarkStructure(toc);
    var outcome := MainSweepFixed(c => mergedSize(pdfs, c));
    run := FinishRun(outcome, pdfs, structure, mergedSize, pageCount);
  }

  /**
   * `main` as written, when all documents fit at the lowest configuration:
   * nothing if every configuration fits; otherwise one bundle, outlined
   * with the whole table of contents, holding the renderings of the first
   * configuration after the run of fitting ones.
   */
  lemma BundleWhenFirstFits(listing: seq<string>, toc: string,
                            mergedSize: (seq<string>, Config) -> nat, pageCount: string -> nat)
    requires var pdfs := GetOrderedPdfs(listing); Fits(c => mergedSize(pdfs, c), GridAt(0))
    ensures var pdfs := GetOrderedPdfs(listing); var size := c => mergedSize(pdfs, c);
      Bundle(listing, toc, mergedSize, pageCount)
      == if RunEnd(size, 0) == GRID - 1 then Wrote([])
         else Wrote([Artifact(OUTPUT_FILE, GridAt(RunEnd(size, 0) + 1),
                              OutlineOf(ParseLines(Lines(toc)).structure, pdfs, PagesOf(pdfs, pageCount)))])
  {
    var pdfs := GetOrderedPdfs(listing);
    MainSweepResult(c => mergedSize(pdfs, c));
  }

  /** Whenever `main` as written bundles, the bundle it writes is over the size limit. */
  lemma BundleExceedsBudget(listing: seq<string>, toc: string,
                            mergedSize: (seq<string>, Config) -> nat, pageCount: string -> nat)
    requires Bundle(listing, toc, mergedSize, pageCount).Wrote?
    requires var outs := Bundle(listing, toc, mergedSize, pageCount).outputs;
      |outs| == 1 && outs[0].name == OUTPUT_FILE
    ensures mergedSize(GetOrderedPdfs(listing), Bundle(listing, toc, mergedSize, pageCount).outputs[0].config)
            > MAX_SIZE_BYTES
  {
    var pdfs := GetOrderedPdfs(listing);
    var size := c => mergedSize(pdfs, c);
    MainSweepResult(size);
    if MainScan(size, 0, None).Regroup? {
      var structure := ParseLines(Lines(toc)).structure;
      var tasks := ScheduleTasks(BuildTasks(GroupsOf(pdfs, Flatten(structure), structure), structure));
      GroupOutputsNamed(tasks, structure, mergedSize, pageCount);
      assert false;
    }
  }

  /**
   * The corrected `main`, when all documents fit at the lowest
   * configuration: one bundle at the end of the run of fitting
   * configurations, within the size limit, outlined with the whole table
   * of contents.
   */
  lemma BundleFixedWhenFirstFits(listing: seq<string>, toc: string,
                                 mergedSize: (seq<string>, Config) -> nat, pageCount: string -> nat)
    requires var pdfs := GetOrderedPdfs(listing); Fits(c => mergedSize(pdfs, c), GridAt(0))
    ensures var pdfs := GetOrderedPdfs(listing); var size := c => mergedSize(pdfs, c);
      && BundleFixed(listing, toc, mergedSize, pageCount)
         == Wrote([Artifact(OUTPUT_FILE, GridAt(RunEnd(size, 0)),
                            OutlineOf(ParseLines(Lines(toc)).structure, pdfs, PagesOf(pdfs, pageCount)))])
      && mergedSize(pdfs, GridAt(RunEnd(size, 0))) <= MAX_SIZE_BYTES
  {
    var pdfs := GetOrderedPdfs(listing);
    MainSweepFixedResult(c => mergedSize(pdfs, c));
  }

  /**
   * Otherwise both versions regroup alike: the run fails exactly when no
   * task is built, and else yields at most one output per section, each
   * named after a section title and none named like the bundle.
   */
  lemma BundleWhenFirstTooLarge(listing: seq<string>, toc: string,
                                mergedSize: (seq<string>, Config) -> nat, pageCount: string -> nat)
    requires var pdfs := GetOrderedPdfs(listing); !Fits(c => mergedSize(pdfs, c), GridAt(0))
    ensures BundleFixed(listing, toc, mergedSize, pageCount) == Bundle(listing, toc, mergedSize, pageCount)
    ensures var pdfs := GetOrderedPdfs(listing); var structure := ParseLines(Lines(toc)).structure;
      var run := Bundle(listing, toc, mergedSize, pageCount);
      && (run.PoolError? <==> BuildTasks(GroupsOf(pdfs, Flatten(structure), structure), structure) == [])
      && (run.Wrote? ==>
            && |run.outputs| <= |structure|
            && forall a :: a in run.outputs ==>
                 a.name != OUTPUT_FILE && exists k :: 0 <= k < |structure| && a.name == OutputName(structure[k].title))
  {
    var pdfs := GetOrderedPdfs(listing);
    var structure := ParseLines(Lines(toc)).structure;
    MainSweepResult(c => mergedSize(pdfs, c));
    MainSweepFixedResult(c => mergedSize(pdfs, c));
    var built := BuildTasks(GroupsOf(pdfs, Flatten(structure), structure), structure);
    var tasks := ScheduleTasks(built);
    ScheduleLargestFirst(built);
    assert |tasks| == |built| by {
      assert |multiset(tasks)| == |multiset(built)|;
    }
    if tasks != [] {
      GroupOutputsNamed(tasks, structure, mergedSize, pageCount);
      forall a | a in GroupOutputs(tasks, structure, mergedSize, pageCount)
        ensures exists k :: 0 <= k < |structure| && a.name == OutputName(structure[k].title)
      {
        var t :| t in tasks && a.name == OutputName(t.title);
        assert t in multiset(built);
        BuiltTaskHasSection(GroupsOf(pdfs, Flatten(structure), structure), structure, t);
      }
    }
  }

  /**
   * With a table of contents without entry lines, a too-large first
   * configuration ends in the pool error: no document is paired, so no
   * task is built.
   */
  lemma EntrylessTocFails(listing: seq<string>, toc: string,
                          mergedSize: (seq<string>, Config) -> nat, pageCount: string -> nat)
    requires var pdfs := GetOrderedPdfs(listing); !Fits(c => mergedSize(pdfs, c), GridAt(0))
    requires Flatten(ParseLines(Lines(toc)).structure) == []
    ensures Bundle(listing, toc, mergedSize, pageCount) == PoolError
  {
    var pdfs := GetOrderedPdfs(listing);
    var structure := ParseLines(Lines(toc)).structure;
    MainSweepResult(c => mergedSize(pdfs, c));
    assert GroupsOf(pdfs, Flatten(structure), structure) == map[];
    NoTasksIffNoGroupedSection(map[], structure);
  }

  lemma {:induction false} BuiltTaskHasSection(groups: map<string, seq<string>>, structure: seq<Section>, t: Task)
    requires t in BuildTasks(groups, structure)
    ensures exists k :: 0 <= k < |structure| && t.title == structure[k].title
    decreases |structure|
  {
    var front := structure[..|structure| - 1];
    if t in BuildTasks(groups, front) {
      BuiltTaskHasSection(groups, front, t);
      var k :| 0 <= k < |front| && t.title == front[k].title;
      assert structure[k] == front[k];
    } else {
      assert t.title == structure[|structure| - 1].title;
    }
  }
}
