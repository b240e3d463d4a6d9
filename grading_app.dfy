/**
 The grading system of the relative grading tool: a roster of students, the
 class mean and standard deviation, and two insertion-ordered maps that the
 grading pass fills, one counting the students per grade and one listing the
 students of each grade.
 */
module GradingApp {
  import opened OrderedMaps
  import opened GradeLadder
  import opened Grouping

  datatype Option<T> = None | Some(value: T)

  /** A student. Name and marks are fixed when the student is created; the grade is written later. */
  class Student {
    const name: string
    const marks: real
    var grade: Option<string>

    constructor (name: string, marks: real)
      ensures this.name == name && this.marks == marks && grade == None
    {
      this.name := name;
      this.marks := marks;
      grade := None;
    }
  }

  /** The grade the ladder gives each student of `ss`, in roster order. */
  function GradesOf(ss: seq<Student>, mean: real, stdDev: real): seq<string>
  {
    seq(|ss|, i requires 0 <= i < |ss| => GetGrade(ss[i].marks, mean, stdDev))
  }

  class GradingSystem {
    var students: seq<Student>
    var mean: real
    var stdDev: real
    var gradeDistribution: OrderedMap<int>
    var gradeWiseStudents: OrderedMap<seq<Student>>

    /** Both maps list each of their keys exactly once, in insertion order. */
    ghost predicate Valid()
      reads this
    {
      gradeDistribution.Valid() && gradeWiseStudents.Valid()
    }

    /** A fresh system: no students, zero statistics, empty maps. */
    constructor ()
      ensures Valid()
      ensures students == [] && mean == 0.0 && stdDev == 0.0
      ensures gradeDistribution == Empty() && gradeWiseStudents == Empty()
    {
      students := [];
      mean, stdDev := 0.0, 0.0;
      gradeDistribution := Empty();
      gradeWiseStudents := Empty();
    }

    /**
     One turn of the grading loop: the student's grade is set by the ladder,
     the count of that grade goes up by one (starting from zero for a new
     grade), and the student is appended to the list of that grade (created
     empty for a new grade).
     */
    method GradeStudent(s: Student)
      modifies s, this`gradeDistribution, this`gradeWiseStudents
      ensures s.grade == Some(GetGrade(s.marks, mean, stdDev))
      ensures var g := GetGrade(s.marks, mean, stdDev);
              gradeDistribution == old(gradeDistribution).Put(g, old(gradeDistribution).GetOrDefault(g, 0) + 1)
              && gradeWiseStudents == old(gradeWiseStudents).Put(g, old(gradeWiseStudents).GetOrDefault(g, []) + [s])
    {
      var g := GetGrade(s.marks, mean, stdDev);
      s.grade := Some(g);
      gradeDistribution := gradeDistribution.Put(g, gradeDistribution.GetOrDefault(g, 0) + 1);
      AppendViaComputeIfAbsent(gradeWiseStudents, g, s);
      gradeWiseStudents := gradeWiseStudents.ComputeIfAbsent(g, []);
      gradeWiseStudents := gradeWiseStudents.Put(g, gradeWiseStudents.entries[g] + [s]);
    }

    /**
     `assignGrades`: one pass over the roster in order, grading each student
     as `GradeStudent` does. Every student ends up with the ladder's grade;
     roster, names, marks and the statistics are left alone; the two maps are
     the folds `Tally` and `Bucket` of the grades over what they held before.
     From empty maps, the two maps have the same keys in first-encounter
     order, each count is the size of its list and is never zero, the counts
     add up to the roster size, and the lists hold every student exactly once.
     */
    method AssignGrades()
      requires Valid()
      modifies this`gradeDistribution, this`gradeWiseStudents, students
      ensures Valid()
      ensures students == old(students) && mean == old(mean) && stdDev == old(stdDev)
      ensures forall i :: 0 <= i < |students| ==>
                students[i].grade == Some(GetGrade(students[i].marks, mean, stdDev))
      ensures gradeDistribution == Tally(old(gradeDistribution), GradesOf(students, mean, stdDev))
      ensures gradeWiseStudents == Bucket(old(gradeWiseStudents), students, GradesOf(students, mean, stdDev))
      ensures old(gradeDistribution) == Empty() && old(gradeWiseStudents) == Empty() ==>
                var grades := GradesOf(students, mean, stdDev);
                gradeDistribution.keys == gradeWiseStudents.keys == FirstEncounter(grades)
                && (forall l :: l in gradeDistribution.entries ==>
                      l in gradeWiseStudents.entries
                      && gradeDistribution.entries[l] == |gradeWiseStudents.entries[l]| > 0)
                && Total(gradeDistribution) == |students|
                && Members(gradeWiseStudents) == multiset(students)
    {
      ghost var grades := GradesOf(students, mean, stdDev);
      ghost var d0, g0 := gradeDistribution, gradeWiseStudents;
      for i := 0 to |students|
        invariant gradeDistribution == Tally(d0, grades[..i])
        invariant gradeWiseStudents == Bucket(g0, students[..i], grades[..i])
        invariant forall j :: 0 <= j < i ==> students[j].grade == Some(GetGrade(students[j].marks, mean, stdDev))
      {
        ghost var d, g := gradeDistribution, gradeWiseStudents;
        GradeStudent(students[i]);
        TallyStep(d0, grades, i, d, gradeDistribution);
        BucketStep(g0, students, grades, i, g, gradeWiseStudents);
      }
      assert grades[..|students|] == grades;
      assert students[..|students|] == students;
      TallyValid(d0, grades);
      BucketValid(g0, students, grades);
      if d0 == Empty() && g0 == Empty() {
        ScanFromEmpty(students, grades);
      }
    }
  }
}
