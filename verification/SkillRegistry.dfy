/** The skill registry of the memory system: a usage count and an incrementally updated success
    rate per skill name. */
module SkillRegistry {
  import opened Reals

  datatype Name = Name(text: string)

  datatype Skill = Skill(description: string, usageCount: int, successRate: real)

  datatype Call = Call(name: Name, description: string, success: bool)

  function Truncated(description: string): string {
    if |description| <= 500 then description else description[..500]
  }

  function Score(success: bool): real {
    if success then 1.0 else 0.0
  }

  /** Stored rows have been used; the schema's default count of 0 is the least possible. */
  ghost predicate ValidRows(skills: map<Name, Skill>) {
    forall n :: n in skills ==> skills[n].usageCount >= 0
  }

  /** The incremental mean after one more call. */
  function NextRate(rate: real, count: int, success: bool): real
    requires count >= 0
  {
    (rate * count as real + Score(success)) / (count + 1) as real
  }

  /** The row an upsert writes. */
  function Row(skills: map<Name, Skill>, call: Call): Skill
    requires call.name in skills ==> skills[call.name].usageCount >= 0
  {
    if call.name in skills then
      var existing := skills[call.name];
      Skill(Truncated(call.description), existing.usageCount + 1,
            NextRate(existing.successRate, existing.usageCount, call.success))
    else Skill(Truncated(call.description), 1, Score(call.success))
  }

  class MemorySystem {
    var skills: map<Name, Skill>

    constructor ()
      ensures skills == map[]
    {
      skills := map[];
    }

    method UpsertSkill(name: Name, description: string, success: bool)
      requires ValidRows(skills)
      modifies this
      ensures ValidRows(skills)
      ensures skills == old(skills)[name := Row(old(skills), Call(name, description, success))]
    {
      hide NextRate;
      if name in skills {
        var existing := skills[name];
        skills := skills[name := Skill(Truncated(description), existing.usageCount + 1,
                                       NextRate(existing.successRate, existing.usageCount, success))];
      } else {
        skills := skills[name := Skill(Truncated(description), 1, Score(success))];
      }
    }

    /** Any sequence of calls. */
    method Replay(calls: seq<Call>)
      requires ValidRows(skills)
      modifies this
      ensures ValidRows(skills) && skills == After(old(skills), calls, |calls|)
    {
      var i := 0;
      while i < |calls|
        invariant 0 <= i <= |calls|
        invariant ValidRows(skills) && skills == After(old(skills), calls, i)
      {
        UpsertSkill(calls[i].name, calls[i].description, calls[i].success);
        i := i + 1;
      }
    }
  }

  /** The registry after the first n calls. */
  ghost function After(start: map<Name, Skill>, calls: seq<Call>, n: nat): (r: map<Name, Skill>)
    requires ValidRows(start) && n <= |calls|
    ensures ValidRows(r)
  {
    if n == 0 then start
    else
      var before := After(start, calls, n - 1);
      before[calls[n - 1].name := Row(before, calls[n - 1])]
  }

  ghost function CallsOf(calls: seq<Call>, n: nat, name: Name): nat
    requires n <= |calls|
  {
    if n == 0 then 0 else CallsOf(calls, n - 1, name) + if calls[n - 1].name == name then 1 else 0
  }

  ghost function SuccessesOf(calls: seq<Call>, n: nat, name: Name): nat
    requires n <= |calls|
  {
    if n == 0 then 0
    else SuccessesOf(calls, n - 1, name) + if calls[n - 1].name == name && calls[n - 1].success then 1 else 0
  }

  ghost function CountIn(skills: map<Name, Skill>, name: Name): int {
    if name in skills then skills[name].usageCount else 0
  }

  /** The number of successes a row stands for. */
  ghost function Credit(skills: map<Name, Skill>, name: Name): real {
    if name in skills then skills[name].successRate * skills[name].usageCount as real else 0.0
  }

  lemma RowAddsOne(skills: map<Name, Skill>, call: Call)
    requires ValidRows(skills)
    ensures var row := Row(skills, call);
      && row.usageCount == CountIn(skills, call.name) + 1
      && row.successRate * row.usageCount as real == Credit(skills, call.name) + Score(call.success)
  {
  }

  lemma UpsertCredits(skills: map<Name, Skill>, call: Call, name: Name)
    requires ValidRows(skills)
    ensures var updated := skills[call.name := Row(skills, call)];
      && CountIn(updated, name) == CountIn(skills, name) + (if name == call.name then 1 else 0)
      && Credit(updated, name) == Credit(skills, name) + (if name == call.name then Score(call.success) else 0.0)
  {
    hide Row;
    RowAddsOne(skills, call);
  }

  /** The incremental mean agrees with the whole history: after any calls on any names a skill's
      count has grown by its calls and its rate times its count by its successes, and a skill that
      was not called is untouched. */
  lemma {:induction false} RegistryCountsHistory(start: map<Name, Skill>, calls: seq<Call>, n: nat, name: Name)
    requires ValidRows(start) && n <= |calls|
    ensures var skills := After(start, calls, n);
      && (name in skills <==> name in start || CallsOf(calls, n, name) > 0)
      && CountIn(skills, name) == CountIn(start, name) + CallsOf(calls, n, name)
      && Credit(skills, name) == Credit(start, name) + SuccessesOf(calls, n, name) as real
      && (CallsOf(calls, n, name) == 0 && name in start ==> skills[name] == start[name])
  {
    hide Row, Credit, CountIn;
    if n > 0 {
      RegistryCountsHistory(start, calls, n - 1, name);
      UpsertCredits(After(start, calls, n - 1), calls[n - 1], name);
    }
  }

  /** The latest of the first n calls of this name. */
  ghost predicate LatestCall(calls: seq<Call>, n: nat, name: Name, i: nat)
    requires n <= |calls|
  {
    i < n && calls[i].name == name && forall j :: i < j < n ==> calls[j].name != name
  }

  /** A skill's description is that of its latest call, cut to five hundred characters. */
  lemma {:induction false} DescriptionIsLatest(start: map<Name, Skill>, calls: seq<Call>, n: nat, name: Name, i: nat)
    requires ValidRows(start) && n <= |calls| && LatestCall(calls, n, name, i)
    ensures var skills := After(start, calls, n);
      && name in skills
      && skills[name].description <= calls[i].description
      && |skills[name].description| == if |calls[i].description| <= 500 then |calls[i].description| else 500
  {
    hide NextRate;
    if i < n - 1 {
      DescriptionIsLatest(start, calls, n - 1, name, i);
    }
  }

  lemma {:induction false} SuccessesAtMostCalls(calls: seq<Call>, n: nat, name: Name)
    requires n <= |calls|
    ensures SuccessesOf(calls, n, name) <= CallsOf(calls, n, name)
  {
    if n > 0 {
      SuccessesAtMostCalls(calls, n - 1, name);
    }
  }

  /** Starting from an empty registry, the stored rate of a called skill is exactly successes over
      calls, and lies between 0 and 1. */
  lemma RateIsMean(calls: seq<Call>, name: Name)
    requires CallsOf(calls, |calls|, name) > 0
    ensures var skills := After(map[], calls, |calls|);
      && name in skills
      && skills[name].successRate == SuccessesOf(calls, |calls|, name) as real / CallsOf(calls, |calls|, name) as real
      && 0.0 <= skills[name].successRate <= 1.0
  {
    RegistryCountsHistory(map[], calls, |calls|, name);
    SuccessesAtMostCalls(calls, |calls|, name);
    RateOfCredit(After(map[], calls, |calls|), name, SuccessesOf(calls, |calls|, name), CallsOf(calls, |calls|, name));
  }

  lemma RateOfCredit(skills: map<Name, Skill>, name: Name, s: nat, c: nat)
    requires name in skills && CountIn(skills, name) == c > 0 && Credit(skills, name) == s as real && s <= c
    ensures skills[name].successRate == s as real / c as real && 0.0 <= skills[name].successRate <= 1.0
  {
    var rate := skills[name].successRate;
    Cancel(rate, s as real / c as real, c as real);
  }
}
