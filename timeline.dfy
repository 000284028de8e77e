/**
 * The "Education & Experience" section: the timeline entries are split into
 * an education column and an experience column by the entry's type, each
 * column keeping the timeline's order.
 */
module Timeline {
  import opened Seqs

  /** One timeline entry; `kind` is the entry's `type` field. */
  datatype TimelineItem = TimelineItem(id: string, kind: string, date: string, title: string,
                                       org: string, details: seq<string>)

  const EducationKind: string := "education"
  const ExperienceKind: string := "experience"

  /** The entries of the given type. */
  function OfKind(kind: string): (f: TimelineItem -> bool)
  {
    (x: TimelineItem) => x.kind == kind
  }

  /** The left column: the education entries, in timeline order. */
  function EducationItems(timeline: seq<TimelineItem>): (r: seq<TimelineItem>)
  {
    Filter(timeline, OfKind(EducationKind))
  }

  /** The right column: the experience entries, in timeline order. */
  function ExperienceItems(timeline: seq<TimelineItem>): (r: seq<TimelineItem>)
  {
    Filter(timeline, OfKind(ExperienceKind))
  }

  /**
   * Each column is the subsequence of the timeline taken at exactly the
   * positions whose entry has that column's type.
   */
  lemma {:induction false} ColumnsAreSelections(timeline: seq<TimelineItem>)
    ensures IsSelection(EducationItems(timeline), timeline,
                        KeptIndices(timeline, OfKind(EducationKind)), OfKind(EducationKind))
    ensures IsSelection(ExperienceItems(timeline), timeline,
                        KeptIndices(timeline, OfKind(ExperienceKind)), OfKind(ExperienceKind))
  {
    FilterIsSelection(timeline, OfKind(EducationKind));
    FilterIsSelection(timeline, OfKind(ExperienceKind));
  }

  /**
   * An entry appears in a column exactly when it is in the timeline with that
   * column's type, so no entry appears in both columns.
   */
  lemma ColumnMembership(timeline: seq<TimelineItem>, x: TimelineItem)
    ensures x in EducationItems(timeline) <==> x in timeline && x.kind == EducationKind
    ensures x in ExperienceItems(timeline) <==> x in timeline && x.kind == ExperienceKind
    ensures !(x in EducationItems(timeline) && x in ExperienceItems(timeline))
  {
    FilterMembership(timeline, OfKind(EducationKind), x);
    FilterMembership(timeline, OfKind(ExperienceKind), x);
  }

  /**
   * Together the columns show no entry more often than the timeline holds
   * it; an entry of any other type is shown in neither.
   */
  lemma ColumnsWithinTimeline(timeline: seq<TimelineItem>)
    ensures multiset(EducationItems(timeline)) + multiset(ExperienceItems(timeline)) <= multiset(timeline)
    ensures |EducationItems(timeline)| + |ExperienceItems(timeline)| <= |timeline|
    ensures forall x: TimelineItem :: x.kind != EducationKind && x.kind != ExperienceKind ==>
      x !in EducationItems(timeline) && x !in ExperienceItems(timeline)
  {
    FilterDisjoint(timeline, OfKind(EducationKind), OfKind(ExperienceKind));
    forall x: TimelineItem | x.kind != EducationKind && x.kind != ExperienceKind
      ensures x !in EducationItems(timeline) && x !in ExperienceItems(timeline)
    {
      FilterMembership(timeline, OfKind(EducationKind), x);
      FilterMembership(timeline, OfKind(ExperienceKind), x);
    }
  }

  /**
   * When every entry is of one of the two types, the columns split the
   * timeline: each entry is shown exactly once.
   */
  lemma ColumnsPartitionTimeline(timeline: seq<TimelineItem>)
    requires forall x :: x in timeline ==> x.kind == EducationKind || x.kind == ExperienceKind
    ensures multiset(EducationItems(timeline)) + multiset(ExperienceItems(timeline)) == multiset(timeline)
    ensures |EducationItems(timeline)| + |ExperienceItems(timeline)| == |timeline|
  {
    FilterPartition(timeline, OfKind(EducationKind), OfKind(ExperienceKind));
  }
}
