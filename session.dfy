/**
 * The page's session state (app.py:14-29) and the transitions one run of the
 * page script applies to it: the goal check (286-295), the generate button
 * (298-310), the two course toggles (313-321) and the course cache
 * (442-461). The roadmap generator, the course search and the course ranker
 * are calls into other services; their answers are parameters here.
 */
module Session {
  import opened Text

  /** One course suggestion as the search or the ranker returns it. */
  datatype Course = Course(title: string, link: string, snippet: string, reason: string)

  /** The roadmap is shown, and the course block runs, only when it is a non-empty string (Python truthiness). */
  predicate Shows(roadmap: Option<string>) {
    roadmap.Some? && roadmap.value != ""
  }

  /**
   * What the course block stores when the cache is empty (app.py:450-461).
   * With ranking off the search results are cached exactly as found. The
   * cache holds no course exactly when the search found none, or the ranker
   * was asked and returned none. Every cached course was either found by the
   * search or returned by the ranker, and the ranker is consulted only on a
   * non-empty search result.
   */
  function CachedCourses(found: seq<Course>, ranked: seq<Course>, rankingOn: bool): (courses: seq<Course>)
    ensures !rankingOn ==> courses == found
    ensures courses == [] <==> found == [] || (rankingOn && ranked == [])
    ensures forall c :: c in courses ==> c in found || (rankingOn && c in ranked)
    ensures found == [] ==> courses == []
  {
    if found != [] then (if rankingOn then ranked else found) else []
  }

  class State {
    var roadmap: Option<string>
    var lastGoal: string
    var goalUpdated: bool
    var showCourses: bool
    var showRankedCourses: bool
    var globalRankedCourses: Option<seq<Course>>
    var followUpResponse: string
    var followUpQuestionInput: string
    /** The goal the cached courses were searched for. */
    ghost var coursesGoal: string

    /** Cached courses exist only while a roadmap is shown, and always belong to the current goal. */
    ghost predicate Valid()
      reads this
    {
      globalRankedCourses.Some? ==> Shows(roadmap) && coursesGoal == lastGoal
    }

    /** The follow-up answer and input are cleared, both toggles are off and the cache is empty. */
    predicate Reset()
      reads this
    {
      && !showCourses && !showRankedCourses && globalRankedCourses.None?
      && followUpResponse == "" && followUpQuestionInput == ""
    }

    /** The defaults a new session starts with (app.py:14-29). */
    constructor()
      ensures Valid() && Reset()
      ensures roadmap.None? && lastGoal == "" && !goalUpdated
    {
      roadmap := None;
      lastGoal := "";
      goalUpdated := false;
      showCourses := false;
      showRankedCourses := false;
      globalRankedCourses := None;
      followUpResponse := "";
      followUpQuestionInput := "";
      coursesGoal := "";
    }

    /**
     * The goal check (app.py:286-295): a goal different from the last one is
     * recorded, marked as updated, and resets the toggles, the cache and the
     * follow-up; the roadmap stays. The same goal changes nothing.
     */
    method ObserveGoal(userGoal: string)
      requires Valid()
      modifies this
      ensures Valid()
      ensures lastGoal == userGoal && roadmap == old(roadmap)
      ensures userGoal != old(lastGoal) ==> goalUpdated && Reset()
      ensures userGoal == old(lastGoal) ==>
        && goalUpdated == old(goalUpdated) && showCourses == old(showCourses)
        && showRankedCourses == old(showRankedCourses) && globalRankedCourses == old(globalRankedCourses)
        && followUpResponse == old(followUpResponse) && followUpQuestionInput == old(followUpQuestionInput)
    {
      if userGoal != lastGoal {
        goalUpdated := true;
        lastGoal := userGoal;
        globalRankedCourses := None;
        followUpResponse := "";
        followUpQuestionInput := "";
        showCourses := false;
        showRankedCourses := false;
      }
    }

    /**
     * The generate button (app.py:298-310): a blank goal is refused and
     * nothing changes; otherwise the generator's answer becomes the roadmap,
     * the goal counts as handled and the toggles, cache and follow-up reset.
     */
    method Generate(userGoal: string, generated: string)
      requires Valid()
      modifies this
      ensures Valid()
      ensures lastGoal == old(lastGoal)
      ensures Blank(userGoal) ==>
        && roadmap == old(roadmap) && goalUpdated == old(goalUpdated) && showCourses == old(showCourses)
        && showRankedCourses == old(showRankedCourses) && globalRankedCourses == old(globalRankedCourses)
        && followUpResponse == old(followUpResponse) && followUpQuestionInput == old(followUpQuestionInput)
      ensures !Blank(userGoal) ==> roadmap == Some(generated) && !goalUpdated && Reset()
    {
      StripEmpty(userGoal);
      if Strip(userGoal) == "" {
        return;
      }
      roadmap := Some(generated);
      goalUpdated := false;
      showCourses := false;
      showRankedCourses := false;
      globalRankedCourses := None;
      followUpResponse := "";
      followUpQuestionInput := "";
    }

    /**
     * The two toggles (app.py:313-321), shown only with a roadmap: the course
     * toggle takes the user's setting, and the ranking toggle does too, but
     * only while courses are on; with courses off it keeps its old value.
     */
    method SetToggles(coursesOn: bool, rankingOn: bool)
      requires Valid()
      modifies this
      ensures Valid()
      ensures roadmap == old(roadmap) && lastGoal == old(lastGoal) && goalUpdated == old(goalUpdated)
      ensures globalRankedCourses == old(globalRankedCourses)
      ensures followUpResponse == old(followUpResponse) && followUpQuestionInput == old(followUpQuestionInput)
      ensures showCourses == if Shows(roadmap) then coursesOn else old(showCourses)
      ensures showRankedCourses == if Shows(roadmap) && coursesOn then rankingOn else old(showRankedCourses)
    {
      if roadmap.Some? && roadmap.value != "" {
        showCourses := coursesOn;
        if showCourses {
          showRankedCourses := rankingOn;
        }
      }
    }

    /**
     * The course cache (app.py:442-461): with a roadmap shown, courses on and
     * the cache empty, the search for the last goal fills it once (ranked
     * when ranking is on); in every other state nothing changes. `found` is
     * what the search returns for the last goal, `ranked` what the ranker
     * returns for those results.
     */
    method FillCourseCache(found: seq<Course>, ranked: seq<Course>)
      requires Valid()
      modifies this
      ensures Valid()
      ensures roadmap == old(roadmap) && lastGoal == old(lastGoal) && goalUpdated == old(goalUpdated)
      ensures showCourses == old(showCourses) && showRankedCourses == old(showRankedCourses)
      ensures followUpResponse == old(followUpResponse) && followUpQuestionInput == old(followUpQuestionInput)
      ensures old(globalRankedCourses).Some? || !Shows(roadmap) || !showCourses ==>
        globalRankedCourses == old(globalRankedCourses)
      ensures old(globalRankedCourses).None? && Shows(roadmap) && showCourses ==>
        globalRankedCourses == Some(CachedCourses(found, ranked, showRankedCourses))
    {
      if roadmap.Some? && roadmap.value != "" && showCourses {
        if globalRankedCourses.None? {
          if found != [] {
            if showRankedCourses {
              globalRankedCourses := Some(ranked);
            } else {
              globalRankedCourses := Some(found);
            }
          } else {
            globalRankedCourses := Some([]);
          }
          coursesGoal := lastGoal;
        }
      }
    }

    /**
     * One run of the page script over the session: the goal check, the
     * button, the toggles, then the course block. After it the goal is
     * recorded, and any cached courses were searched for that goal with a
     * roadmap on the page; a generated roadmap leaves the cache empty.
     */
    method Run(userGoal: string, clicked: bool, generated: string, coursesOn: bool, rankingOn: bool,
               found: seq<Course>, ranked: seq<Course>)
      requires Valid()
      modifies this
      ensures Valid()
      ensures lastGoal == userGoal
      ensures globalRankedCourses.Some? ==> Shows(roadmap) && coursesGoal == userGoal
      ensures clicked && !Blank(userGoal) ==> roadmap == Some(generated) && !goalUpdated
      ensures !clicked || Blank(userGoal) ==> roadmap == old(roadmap)
      ensures userGoal != old(lastGoal) && (!clicked || Blank(userGoal)) ==> goalUpdated
      ensures clicked && !Blank(userGoal) && Shows(roadmap) ==>
        showCourses == coursesOn && showRankedCourses == (coursesOn && rankingOn)
        && globalRankedCourses == (if coursesOn then Some(CachedCourses(found, ranked, rankingOn)) else None)
    {
      ObserveGoal(userGoal);
      if clicked {
        Generate(userGoal, generated);
      }
      SetToggles(coursesOn, rankingOn);
      FillCourseCache(found, ranked);
    }
  }
}
