/** The measurements the VRO recorder keeps (the `Measurements` class of pyvroui.py): for every
    core, the list of its measurements in the order they were taken. The dictionary is a
    `defaultdict(list)`, so an absent core reads as an empty list. */
module Vro {

  /** `Measurement(core, year, width, measurement)`: the recorder passes the texts of its input
      fields and the width it formats from them. */
  datatype Measurement = Measurement(core: string, year: string, width: string, measurement: string)

  /** The measurements of a core, `[]` for a core the dictionary does not hold. */
  function Recorded(m: map<string, seq<Measurement>>, core: string): seq<Measurement> {
    if core in m then m[core] else []
  }

  /** The dictionary after `append`: the measurement ends its core's list, which is created when
      absent; every other core keeps its list. */
  function Appended(m: map<string, seq<Measurement>>, x: Measurement): (r: map<string, seq<Measurement>>)
    ensures r.Keys == m.Keys + {x.core}
    ensures Recorded(r, x.core) == Recorded(m, x.core) + [x]
    ensures forall c :: c != x.core ==> Recorded(r, c) == Recorded(m, c)
  {
    m[x.core := Recorded(m, x.core) + [x]]
  }

  /** The dictionary after `remove_core`: that core is gone and every other keeps its list; an
      absent core changes nothing. */
  function WithoutCore(m: map<string, seq<Measurement>>, core: string): (r: map<string, seq<Measurement>>)
    ensures r.Keys == m.Keys - {core}
    ensures forall c :: c in r ==> r[c] == m[c]
    ensures core !in m ==> r == m
  {
    m - {core}
  }

  /** The dictionary after `remove_last_measurement`: the core's list loses its last element and
      nothing else changes; an absent core or an empty list (whose `IndexError` is swallowed)
      leaves the dictionary as it was. */
  function WithoutLast(m: map<string, seq<Measurement>>, core: string): (r: map<string, seq<Measurement>>)
    ensures r.Keys == m.Keys
    ensures forall c :: c in m && c != core ==> r[c] == m[c]
    ensures core in m && |m[core]| > 0 ==> r[core] + [m[core][|m[core]| - 1]] == m[core]
    ensures core !in m || |m[core]| == 0 ==> r == m
  {
    if core in m && |m[core]| > 0 then
      var xs := m[core];
      assert xs[..|xs| - 1] + [xs[|xs| - 1]] == xs;
      m[core := xs[..|xs| - 1]]
    else m
  }

  /** Removing the last measurement undoes appending it to a core that had a list; a core that
      had none is left with an empty one, as the `defaultdict` created it. */
  lemma {:induction false} UndoAppend(m: map<string, seq<Measurement>>, x: Measurement)
    ensures x.core in m ==> WithoutLast(Appended(m, x), x.core) == m
    ensures x.core !in m ==> WithoutLast(Appended(m, x), x.core) == m[x.core := []]
  {
    var a := Appended(m, x);
    var r := WithoutLast(a, x.core);
    assert r[x.core] == Recorded(m, x.core);
  }

  /** Removing a core forgets everything appended to it. */
  lemma {:induction false} RemoveAppended(m: map<string, seq<Measurement>>, x: Measurement)
    ensures WithoutCore(Appended(m, x), x.core) == WithoutCore(m, x.core)
  {
    var a := WithoutCore(Appended(m, x), x.core);
    var b := WithoutCore(m, x.core);
    assert forall c :: c in a ==> a[c] == b[c];
  }

  /** Appending to one core and then to another gives the same dictionary in either order. */
  lemma {:induction false} AppendsCommute(m: map<string, seq<Measurement>>, x: Measurement, y: Measurement)
    requires x.core != y.core
    ensures Appended(Appended(m, x), y) == Appended(Appended(m, y), x)
  {
    var a := Appended(Appended(m, x), y);
    var b := Appended(Appended(m, y), x);
    assert a[x.core] == b[x.core] && a[y.core] == b[y.core];
  }

  class Measurements {
    var measurements: map<string, seq<Measurement>>

    /** No core. */
    constructor ()
      ensures measurements == map[]
    {
      measurements := map[];
    }

    /** `append`: `Measurement(core, year, width, value)` at the end of that core's list. */
    method Append(core: string, year: string, width: string, value: string)
      modifies this
      ensures measurements == Appended(old(measurements), Measurement(core, year, width, value))
    {
      var x := Measurement(core, year, width, value);
      measurements := measurements[core := Recorded(measurements, core) + [x]];
    }

    /** `remove_core`. */
    method RemoveCore(core: string)
      modifies this
      ensures measurements == WithoutCore(old(measurements), core)
    {
      if core !in measurements {
        return;
      }
      measurements := measurements - {core};
    }

    /** `remove_last_measurement`: `del self.measurements[core][-1]`, the `IndexError` of an empty
        list swallowed. */
    method RemoveLastMeasurement(core: string)
      modifies this
      ensures measurements == WithoutLast(old(measurements), core)
    {
      if core !in measurements {
        return;
      }
      var xs := measurements[core];
      if |xs| == 0 {
        return;
      }
      measurements := measurements[core := xs[..|xs| - 1]];
    }
  }
}
