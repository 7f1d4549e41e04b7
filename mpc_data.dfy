/**
 * The master-slave constraint store of the overlapping-mesh coupling (MpcData). Its own source
 * is not part of this model; it is modelled from the way the Chimera process uses it: a set of
 * weighted edges from master DoFs to each slave DoF, inserted or overwritten one edge at a
 * time and removed slave by slave, plus the annotations of the conservative correction.
 */
module MpcConstraints {

  /** The variable components the coupling constrains. */
  datatype Component = VelocityX | VelocityY | VelocityZ | Pressure

  /** A degree of freedom: the id of its node and its variable component. */
  datatype DofKey = DofKey(node: nat, component: Component)

  /** One master of a slave: its weight and the additive constant of the relation. */
  datatype Edge = Edge(weight: real, constant: real)

  /** Slave DoF -> master DoF -> edge. */
  type Constraints = map<DofKey, map<DofKey, Edge>>

  /** The masters of a slave; none when the slave is not constrained. */
  function Masters(cs: Constraints, slave: DofKey): (r: map<DofKey, Edge>)
    ensures slave !in cs ==> r == map[]
    ensures slave in cs ==> r == cs[slave]
  {
    if slave in cs then cs[slave] else map[]
  }

  /** AddConstraint: inserts the edge master -> slave, overwriting an earlier edge between the two. */
  function Insert(cs: Constraints, slave: DofKey, master: DofKey, e: Edge): Constraints
  {
    cs[slave := Masters(cs, slave)[master := e]]
  }

  /** After an insertion the slave is constrained, has the new edge besides its others, and no other slave changes. */
  lemma InsertEffect(cs: Constraints, slave: DofKey, master: DofKey, e: Edge)
    ensures var r := Insert(cs, slave, master, e);
      forall k :: k in r <==> k in cs || k == slave
    ensures Masters(Insert(cs, slave, master, e), slave) == Masters(cs, slave)[master := e]
    ensures var r := Insert(cs, slave, master, e);
      forall k :: k != slave ==> Masters(r, k) == Masters(cs, k)
  {
  }

  /** InsertEffect for one key. */
  lemma InsertAt(cs: Constraints, slave: DofKey, master: DofKey, e: Edge, k: DofKey)
    ensures k in Insert(cs, slave, master, e) <==> k in cs || k == slave
    ensures Masters(Insert(cs, slave, master, e), k) == if k == slave then Masters(cs, slave)[master := e] else Masters(cs, k)
  {
  }

  /** RemoveConstraint: deletes every edge of the slave. */
  function Remove(cs: Constraints, slave: DofKey): Constraints
  {
    cs - {slave}
  }

  /** After a removal the slave has no master and no other slave changes. */
  lemma RemoveEffect(cs: Constraints, slave: DofKey)
    ensures var r := Remove(cs, slave);
      forall k :: k in r <==> k in cs && k != slave
    ensures Masters(Remove(cs, slave), slave) == map[]
    ensures var r := Remove(cs, slave);
      forall k :: k != slave ==> Masters(r, k) == Masters(cs, k)
  {
  }

  /** Adding an edge and then removing its slave leaves the slave unconstrained and the rest as before. */
  lemma InsertThenRemove(cs: Constraints, slave: DofKey, master: DofKey, e: Edge)
    ensures Remove(Insert(cs, slave, master, e), slave) == Remove(cs, slave)
  {
    var lhs := Remove(Insert(cs, slave, master, e), slave);
    var rhs := Remove(cs, slave);
    InsertEffect(cs, slave, master, e);
    RemoveEffect(Insert(cs, slave, master, e), slave);
    RemoveEffect(cs, slave);
    assert lhs.Keys == rhs.Keys;
    forall k | k in lhs
      ensures lhs[k] == rhs[k]
    {
      assert Masters(lhs, k) == Masters(rhs, k);
    }
  }

  /** The settings of a store that the process sets once and then leaves alone. */
  datatype Settings = Settings(name: string, active: bool, isWeak: bool, velocityOrPressure: string, kind: string)

  class MpcData {
    var settings: Settings
    var constraints: Constraints
    /** The nodal-normal component attached to each slave DoF. */
    var nodalNormals: map<DofKey, real>
    var rtMinvR: real
    /** The conservative-correction constant of each slave equation id. */
    var equationConstants: map<nat, real>

    /**
     * A new, empty and inactive store of the given type. Each method below names the one field it
     * changes in its modifies clause; every other field keeps its value.
     */
    constructor (kind: string)
      ensures settings == Settings("", false, false, "", kind)
      ensures constraints == map[] && nodalNormals == map[] && equationConstants == map[] && rtMinvR == 0.0
    {
      settings := Settings("", false, false, "", kind);
      constraints := map[];
      nodalNormals := map[];
      rtMinvR := 0.0;
      equationConstants := map[];
    }

    method AddConstraint(slave: DofKey, master: DofKey, weight: real, constant: real)
      modifies this`constraints
      ensures constraints == Insert(old(constraints), slave, master, Edge(weight, constant))
    {
      constraints := Insert(constraints, slave, master, Edge(weight, constant));
    }

    method RemoveConstraint(slave: DofKey)
      modifies this`constraints
      ensures constraints == Remove(old(constraints), slave)
    {
      constraints := Remove(constraints, slave);
    }

    method AddNodalNormalToSlaveDof(slave: DofKey, component: real)
      modifies this`nodalNormals
      ensures nodalNormals == old(nodalNormals)[slave := component]
    {
      nodalNormals := nodalNormals[slave := component];
    }

    /** Clear: the store forgets its edges, normals and constants; its settings stay. */
    method Clear()
      modifies this`constraints, this`nodalNormals, this`equationConstants
      ensures constraints == map[] && nodalNormals == map[] && equationConstants == map[]
    {
      constraints := map[];
      nodalNormals := map[];
      equationConstants := map[];
    }

    method SetName(name: string)
      modifies this`settings
      ensures settings == old(settings).(name := name)
    {
      settings := settings.(name := name);
    }

    method SetActive(active: bool)
      modifies this`settings
      ensures settings == old(settings).(active := active)
    {
      settings := settings.(active := active);
    }

    method SetIsWeak(isWeak: bool)
      modifies this`settings
      ensures settings == old(settings).(isWeak := isWeak)
    {
      settings := settings.(isWeak := isWeak);
    }

    method SetVelocityOrPressure(which: string)
      modifies this`settings
      ensures settings == old(settings).(velocityOrPressure := which)
    {
      settings := settings.(velocityOrPressure := which);
    }

    method SetType(kind: string)
      modifies this`settings
      ensures settings == old(settings).(kind := kind)
    {
      settings := settings.(kind := kind);
    }
  }
}
