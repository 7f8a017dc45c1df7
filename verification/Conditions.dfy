/**
  The status conditions of a performance profile (controllers/status.go).
  The controller always writes one of three condition lists. Two lists count as
  the same status when they differ in timestamps only.
 */
module Conditions {
  import opened Prelude

  datatype ConditionType = Available | Upgradeable | Progressing | Degraded

  datatype ConditionStatus = True | False | Unknown

  /** `stamp` stands for both timestamps, which are always set to the same clock reading. */
  datatype Condition = Condition(ctype: ConditionType, status: ConditionStatus,
                                 reason: string, message: string, stamp: int)

  datatype Status = Status(conditions: seq<Condition>, tuned: Option<string>, runtimeClass: Option<string>)

  function AvailableConditions(now: int): seq<Condition> {
    [Condition(Available, True, "", "", now),
     Condition(Upgradeable, True, "", "", now),
     Condition(Progressing, False, "", "", now),
     Condition(Degraded, False, "", "", now)]
  }

  function DegradedConditions(reason: string, message: string, now: int): seq<Condition> {
    [Condition(Available, False, "", "", now),
     Condition(Upgradeable, False, "", "", now),
     Condition(Progressing, False, "", "", now),
     Condition(Degraded, True, reason, message, now)]
  }

  function ProgressingConditions(reason: string, message: string, now: int): seq<Condition> {
    [Condition(Available, False, "", "", now),
     Condition(Upgradeable, False, "", "", now),
     Condition(Progressing, True, reason, message, now),
     Condition(Degraded, False, "", "", now)]
  }

  /** Equality of condition lists up to timestamps. */
  ghost predicate SameButForTime(a: seq<Condition>, b: seq<Condition>) {
    |a| == |b| && forall i | 0 <= i < |a| :: SameCondition(a[i], b[i])
  }

  ghost predicate SameCondition(a: Condition, b: Condition) {
    a == b.(stamp := a.stamp)
  }

  /** The list has conditions of type `t`, and all of them have this status. */
  ghost predicate StatusIs(cs: seq<Condition>, t: ConditionType, status: ConditionStatus) {
    (exists c :: c in cs && c.ctype == t) && forall c | c in cs && c.ctype == t :: c.status == status
  }

  /** Whatever explains a condition of type `t` is this reason and this message. */
  ghost predicate ExplainedBy(cs: seq<Condition>, t: ConditionType, reason: string, message: string) {
    forall c | c in cs && c.ctype == t :: c.reason == reason && c.message == message
  }

  /** The four types, each once and in the order in which the constructors list them. */
  ghost predicate FourTypes(cs: seq<Condition>) {
    && |cs| == 4
    && cs[0].ctype == Available
    && cs[1].ctype == Upgradeable
    && cs[2].ctype == Progressing
    && cs[3].ctype == Degraded
  }

  /** A coherent condition list: exactly one of Available, Progressing and Degraded is true,
      none is unknown, and Upgradeable copies Available. */
  ghost predicate Coherent(cs: seq<Condition>) {
    && FourTypes(cs)
    && (forall i | 0 <= i < 4 :: cs[i].status != Unknown)
    && cs[1].status == cs[0].status
    && (cs[0].status == True || cs[2].status == True || cs[3].status == True)
    && !(cs[0].status == True && cs[2].status == True)
    && !(cs[0].status == True && cs[3].status == True)
    && !(cs[2].status == True && cs[3].status == True)
  }

  /** What the stored condition list looks like in every reachable state. */
  ghost predicate StoredShape(cs: seq<Condition>) {
    cs == [] || Coherent(cs)
  }

  /** The first condition of type `t`, as FindStatusCondition returns it. */
  function Find(cs: seq<Condition>, t: ConditionType): (r: Option<Condition>)
    ensures r.None? <==> forall i | 0 <= i < |cs| :: cs[i].ctype != t
    ensures r.Some? ==> r.value in cs && r.value.ctype == t
  {
    if cs == [] then None else if cs[0].ctype == t then Some(cs[0]) else Find(cs[1..], t)
  }

  /** True when condition `c` has no counterpart in `stored`, or one that differs in more than time. */
  predicate Differs(stored: seq<Condition>, c: Condition) {
    var o := Find(stored, c.ctype);
    || o.None?
    || o.value.status != c.status
    || o.value.reason != c.reason
    || o.value.message != c.message
  }

  predicate AnyDiffers(stored: seq<Condition>, wanted: seq<Condition>) {
    exists i | 0 <= i < |wanted| :: Differs(stored, wanted[i])
  }

  /** The comparison loop of updateStatus. */
  method ConditionsModified(stored: seq<Condition>, wanted: seq<Condition>) returns (modified: bool)
    ensures modified <==> exists i | 0 <= i < |wanted| :: Differs(stored, wanted[i])
  {
    modified := false;
    var i := 0;
    while i < |wanted|
      invariant 0 <= i <= |wanted|
      invariant !modified
      invariant forall k | 0 <= k < i :: !Differs(stored, wanted[k])
    {
      var oldCondition := Find(stored, wanted[i].ctype);
      if oldCondition.None? {
        modified := true;
        assert Differs(stored, wanted[i]);
        break;
      }
      if oldCondition.value.status != wanted[i].status ||
         oldCondition.value.reason != wanted[i].reason ||
         oldCondition.value.message != wanted[i].message
      {
        modified := true;
        assert Differs(stored, wanted[i]);
        break;
      }
      i := i + 1;
    }
  }

  /** Each list the controller builds is coherent. */
  lemma ConstructorsAreCoherent(reason: string, message: string, now: int)
    ensures Coherent(AvailableConditions(now))
    ensures Coherent(DegradedConditions(reason, message, now))
    ensures Coherent(ProgressingConditions(reason, message, now))
  {
  }

  /** On the four types, the status of a type is that at its position. */
  lemma StatusAtIndex(cs: seq<Condition>, i: nat)
    requires FourTypes(cs) && i < 4
    ensures StatusIs(cs, cs[i].ctype, cs[i].status)
    ensures ExplainedBy(cs, cs[i].ctype, cs[i].reason, cs[i].message)
  {
    assert cs[i] in cs;
  }

  /** Which types are true in the list of an available profile. */
  ghost predicate SaysAvailable(cs: seq<Condition>) {
    && StatusIs(cs, Available, True)
    && StatusIs(cs, Upgradeable, True)
    && StatusIs(cs, Progressing, False)
    && StatusIs(cs, Degraded, False)
  }

  ghost predicate SaysDegraded(cs: seq<Condition>, reason: string, message: string) {
    && StatusIs(cs, Available, False)
    && StatusIs(cs, Upgradeable, False)
    && StatusIs(cs, Progressing, False)
    && StatusIs(cs, Degraded, True)
    && ExplainedBy(cs, Degraded, reason, message)
  }

  ghost predicate SaysProgressing(cs: seq<Condition>, reason: string, message: string) {
    && StatusIs(cs, Available, False)
    && StatusIs(cs, Upgradeable, False)
    && StatusIs(cs, Progressing, True)
    && StatusIs(cs, Degraded, False)
    && ExplainedBy(cs, Progressing, reason, message)
  }

  lemma StatusAtEach(cs: seq<Condition>)
    requires FourTypes(cs)
    ensures StatusIs(cs, Available, cs[0].status) && StatusIs(cs, Upgradeable, cs[1].status)
    ensures StatusIs(cs, Progressing, cs[2].status) && StatusIs(cs, Degraded, cs[3].status)
    ensures ExplainedBy(cs, Progressing, cs[2].reason, cs[2].message)
    ensures ExplainedBy(cs, Degraded, cs[3].reason, cs[3].message)
  {
    StatusAtIndex(cs, 0);
    StatusAtIndex(cs, 1);
    StatusAtIndex(cs, 2);
    StatusAtIndex(cs, 3);
  }

  /** Anything stored that equals a built list up to time says what that list was built for. */
  lemma ConstructorsSay(cs: seq<Condition>, reason: string, message: string, now: int)
    ensures SameButForTime(cs, AvailableConditions(now)) ==> SaysAvailable(cs)
    ensures SameButForTime(cs, DegradedConditions(reason, message, now)) ==> SaysDegraded(cs, reason, message)
    ensures SameButForTime(cs, ProgressingConditions(reason, message, now)) ==> SaysProgressing(cs, reason, message)
  {
    if SameButForTime(cs, AvailableConditions(now)) {
      StatusAtEach(cs);
    }
    if SameButForTime(cs, DegradedConditions(reason, message, now)) {
      StatusAtEach(cs);
    }
    if SameButForTime(cs, ProgressingConditions(reason, message, now)) {
      StatusAtEach(cs);
    }
  }

  /** FindStatusCondition on a list that starts with the four types in order. */
  lemma FindInFour(cs: seq<Condition>, i: nat)
    requires i < 4 <= |cs|
    requires cs[0].ctype == Available && cs[1].ctype == Upgradeable
    requires cs[2].ctype == Progressing && cs[3].ctype == Degraded
    ensures Find(cs, cs[i].ctype) == Some(cs[i])
  {
    FindSkips(cs, i);
  }

  lemma {:induction false} FindSkips(cs: seq<Condition>, i: nat)
    requires i < |cs| && forall k | 0 <= k < i :: cs[k].ctype != cs[i].ctype
    ensures Find(cs, cs[i].ctype) == Some(cs[i])
  {
    if i > 0 {
      assert cs[1..][i - 1] == cs[i];
      FindSkips(cs[1..], i - 1);
    }
  }

  /** The shortcut of updateStatus is exact: on a stored list with the four types the loop reports no
      change precisely when the two lists are equal up to timestamps. */
  lemma ExactOnFourTypes(stored: seq<Condition>, wanted: seq<Condition>)
    requires FourTypes(stored) && FourTypes(wanted)
    ensures !AnyDiffers(stored, wanted) <==> SameButForTime(stored, wanted)
  {
    forall i | 0 <= i < 4
      ensures Differs(stored, wanted[i]) <==> !SameCondition(stored[i], wanted[i])
    {
      DiffersInFour(stored, wanted, i);
    }
  }

  lemma DiffersInFour(stored: seq<Condition>, wanted: seq<Condition>, i: nat)
    requires FourTypes(stored) && FourTypes(wanted) && i < 4
    ensures Differs(stored, wanted[i]) <==> !SameCondition(stored[i], wanted[i])
  {
    FindInFour(stored, i);
    assert stored[i].ctype == wanted[i].ctype;
  }

  /** And so it is on a list that lacks a type, from which every requested list differs. */
  lemma ExactWithoutType(stored: seq<Condition>, wanted: seq<Condition>, t: ConditionType)
    requires FourTypes(wanted) && Find(stored, t).None?
    ensures AnyDiffers(stored, wanted) && !SameButForTime(stored, wanted)
  {
    var i := match t case Available => 0 case Upgradeable => 1 case Progressing => 2 case Degraded => 3;
    assert wanted[i].ctype == t;
    assert Differs(stored, wanted[i]);
    assert |stored| == 4 ==> stored[i].ctype != t;
    assert |stored| == 4 ==> !SameCondition(stored[i], wanted[i]);
  }

  /** On the stored lists of every reachable state. */
  lemma ShortcutIsExact(stored: seq<Condition>, wanted: seq<Condition>)
    requires StoredShape(stored)
    requires FourTypes(wanted)
    ensures !AnyDiffers(stored, wanted) <==> SameButForTime(stored, wanted)
  {
    if stored == [] {
      ExactWithoutType(stored, wanted, Available);
    } else {
      ExactOnFourTypes(stored, wanted);
    }
  }

  /** The shortcut is right about this stored list, whatever is requested. */
  ghost predicate ShortcutRight(stored: seq<Condition>) {
    forall wanted: seq<Condition> | FourTypes(wanted) :: !AnyDiffers(stored, wanted) <==> SameButForTime(stored, wanted)
  }

  /** The first condition of each type. */
  function FirstOfEach(cs: seq<Condition>): seq<Condition>
    requires forall t :: Find(cs, t).Some?
  {
    [Find(cs, Available).value, Find(cs, Upgradeable).value, Find(cs, Progressing).value, Find(cs, Degraded).value]
  }

  /** A list with all types goes unnoticed when the first condition of each is requested. */
  lemma FirstOfEachUnnoticed(stored: seq<Condition>)
    requires forall t :: Find(stored, t).Some?
    ensures FourTypes(FirstOfEach(stored)) && !AnyDiffers(stored, FirstOfEach(stored))
  {
    var wanted := FirstOfEach(stored);
    forall i | 0 <= i < 4
      ensures !Differs(stored, wanted[i])
    {
      assert Find(stored, wanted[i].ctype) == Some(wanted[i]);
    }
  }

  lemma SameTypes(a: seq<Condition>, b: seq<Condition>)
    requires SameButForTime(a, b) && FourTypes(b)
    ensures FourTypes(a)
  {
    forall i | 0 <= i < 4
      ensures a[i].ctype == b[i].ctype
    {
      assert SameCondition(a[i], b[i]);
    }
  }

  /** Exactly: the shortcut is right on the four types in order, and on lists that lack a type. On any
      other list something goes unnoticed. */
  lemma ShortcutRightIff(stored: seq<Condition>)
    ensures ShortcutRight(stored) <==> FourTypes(stored) || exists t :: Find(stored, t).None?
  {
    if FourTypes(stored) {
      forall wanted: seq<Condition> | FourTypes(wanted)
        ensures !AnyDiffers(stored, wanted) <==> SameButForTime(stored, wanted)
      {
        ExactOnFourTypes(stored, wanted);
      }
    } else if t :| Find(stored, t).None? {
      forall wanted: seq<Condition> | FourTypes(wanted)
        ensures !AnyDiffers(stored, wanted) <==> SameButForTime(stored, wanted)
      {
        ExactWithoutType(stored, wanted, t);
      }
      assert ShortcutRight(stored);
      assert Find(stored, t).None?;
    } else {
      FirstOfEachUnnoticed(stored);
      if SameButForTime(stored, FirstOfEach(stored)) {
        SameTypes(stored, FirstOfEach(stored));
      }
    }
  }

  /** For example, a leftover second condition of a type. */
  lemma ShortcutNeedsTheShape(now: int)
    ensures !ShortcutRight(AvailableConditions(now) + [Condition(Degraded, True, "leftover", "", now)])
  {
    var four := AvailableConditions(now);
    var stored := four + [Condition(Degraded, True, "leftover", "", now)];
    forall t
      ensures Find(stored, t).Some?
    {
      var i := match t case Available => 0 case Upgradeable => 1 case Progressing => 2 case Degraded => 3;
      assert stored[i].ctype == four[i].ctype == t;
    }
    assert |stored| == 5 && !FourTypes(stored);
    ShortcutRightIff(stored);
  }
}
