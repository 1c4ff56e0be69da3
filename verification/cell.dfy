/** The bookkeeping state of a mesh cell, Cell<Tdim>: the particles located in
    it, its neighbouring cells, its nodes, its element and its scalar flags. */
module Cells {
  import opened Wrappers
  import Elements

  /** mpm::Index, an unsigned 64-bit global id. */
  type Index = n: int | 0 <= n < 0x1_0000_0000_0000_0000

  /** An unsigned 32-bit value. */
  type Unsigned = n: int | 0 <= n < 0x1_0000_0000

  /** The dimensions a cell is instantiated for. */
  type Dim = d: int | 1 <= d <= 3 witness 1

  /** Tdof, the degrees of freedom per point: the number of independent
      components of a symmetric Tdim x Tdim tensor (1, 3 and 6). */
  function Tdof(d: Dim): (r: nat)
    ensures r == d * (d + 1) / 2
  {
    if d == 1 then 1 else 3 * (d - 1)
  }

  /** A mesh node. Nodes are shared between neighbouring cells and live in the
      mesh; a cell reads only their global id. */
  class NodeBase {
    const id: Index

    constructor (id: Index)
      ensures this.id == id
    {
      this.id := id;
    }
  }

  /** No id occurs twice. */
  predicate NoDuplicates(s: seq<Index>)
  {
    forall i, j :: 0 <= i < j < |s| ==> s[i] != s[j]
  }

  /** Appending keeps a list duplicate-free exactly when the appended id is new. */
  lemma NoDuplicatesSnoc(s: seq<Index>, x: Index)
    ensures NoDuplicates(s + [x]) <==> NoDuplicates(s) && x !in s
  {
    var t := s + [x];
    if NoDuplicates(t) {
      forall i, j | 0 <= i < j < |s| ensures s[i] != s[j] {
        assert t[i] == s[i] && t[j] == s[j];
      }
    }
    if x in s {
      var i :| 0 <= i < |s| && s[i] == x;
      assert t[i] == t[|s|];
    }
  }

  /** The distinct ids of a list. */
  function Members(s: seq<Index>): set<Index>
  {
    set q | q in s
  }

  /** A duplicate-free list has one entry per distinct id. */
  lemma {:induction false} DistinctCount(s: seq<Index>)
    ensures NoDuplicates(s) ==> |Members(s)| == |s|
    decreases |s|
  {
    if s != [] && NoDuplicates(s) {
      var init, last := s[..|s| - 1], s[|s| - 1];
      assert s == init + [last];
      NoDuplicatesSnoc(init, last);
      DistinctCount(init);
      assert Members(s) == Members(init) + {last};
    }
  }

  /** The particle ids after inserting pid: a new id is appended, an id already
      held is refused. */
  function Inserted(ps: seq<Index>, pid: Index): (r: seq<Index>)
    ensures pid in r
    ensures forall q :: q in r <==> q in ps || q == pid
    ensures ps <= r
    ensures |r| == if pid in ps then |ps| else |ps| + 1
    ensures NoDuplicates(ps) ==> NoDuplicates(r)
  {
    NoDuplicatesSnoc(ps, pid);
    if pid in ps then ps else ps + [pid]
  }

  /** The particle ids after erasing every occurrence of pid, keeping the
      order of the others. */
  function Without(ps: seq<Index>, pid: Index): (r: seq<Index>)
    ensures pid !in r
    ensures forall q :: q != pid ==> (q in r <==> q in ps)
    ensures |r| <= |ps|
    ensures pid !in ps ==> r == ps
    ensures NoDuplicates(ps) ==> NoDuplicates(r)
    ensures NoDuplicates(ps) && pid in ps ==> |r| == |ps| - 1
    decreases |ps|
  {
    if ps == [] then []
    else
      var init, last := ps[..|ps| - 1], ps[|ps| - 1];
      assert ps == init + [last];
      var rest := Without(init, pid);
      NoDuplicatesSnoc(init, last);
      NoDuplicatesSnoc(rest, last);
      if last == pid then rest else rest + [last]
  }

  /** Erasing distributes over concatenation: the survivors of the two parts
      keep their relative order. */
  lemma {:induction false} WithoutAppend(ps: seq<Index>, qs: seq<Index>, pid: Index)
    ensures Without(ps + qs, pid) == Without(ps, pid) + Without(qs, pid)
    decreases |qs|
  {
    if qs == [] {
      assert ps + qs == ps;
    } else {
      var init, last := qs[..|qs| - 1], qs[|qs| - 1];
      assert ps + qs == (ps + init) + [last];
      assert (ps + qs)[..|ps + qs| - 1] == ps + init;
      WithoutAppend(ps, init, pid);
    }
  }

  /** Removing an id right after inserting a fresh one restores the list. */
  lemma RemoveUndoesAdd(ps: seq<Index>, pid: Index)
    requires pid !in ps
    ensures Without(Inserted(ps, pid), pid) == ps
  {
  }

  /** The particle ids after inserting ids one after the other. */
  function InsertAll(ps: seq<Index>, ids: seq<Index>): seq<Index>
    decreases |ids|
  {
    if ids == [] then ps else InsertAll(Inserted(ps, ids[0]), ids[1..])
  }

  /** However many times and in whatever order ids are submitted, the cell ends
      up holding each of the submitted and previously held ids exactly once. */
  lemma {:induction false} InsertAllUnion(ps: seq<Index>, ids: seq<Index>)
    requires NoDuplicates(ps)
    ensures NoDuplicates(InsertAll(ps, ids))
    ensures forall q :: q in InsertAll(ps, ids) <==> q in ps || q in ids
    ensures ps <= InsertAll(ps, ids)
    decreases |ids|
  {
    if ids != [] {
      var next := Inserted(ps, ids[0]);
      InsertAllUnion(next, ids[1..]);
      forall q ensures q in ids <==> q == ids[0] || q in ids[1..] {
        assert ids == [ids[0]] + ids[1..];
      }
    }
  }

  /** The set of global ids of a sequence of nodes. */
  function NodeIds(nodes: seq<NodeBase>): set<Index>
  {
    set i | 0 <= i < |nodes| :: nodes[i].id
  }

  /** Shared or repeated nodes can only shrink the id set: there are never more
      ids than nodes. */
  lemma {:induction false} NodeIdsBound(nodes: seq<NodeBase>)
    ensures |NodeIds(nodes)| <= |nodes|
    decreases |nodes|
  {
    if nodes != [] {
      var init := nodes[..|nodes| - 1];
      NodeIdsBound(init);
      assert NodeIds(nodes) == NodeIds(init) + {nodes[|nodes| - 1].id} by {
        forall x ensures x in NodeIds(nodes) <==> x in NodeIds(init) + {nodes[|nodes| - 1].id} {
          if x in NodeIds(nodes) {
            var i :| 0 <= i < |nodes| && nodes[i].id == x;
            if i < |nodes| - 1 {
              assert init[i].id == x;
            }
          }
          if x in NodeIds(init) {
            var i :| 0 <= i < |init| && init[i].id == x;
            assert nodes[i].id == x;
          }
        }
      }
    }
  }

  class Cell {
    /** id_: the global id of the cell. */
    const id: Index
    /** Tdim */
    const dim: Dim
    /** nnodes_: the number of nodes the cell was built for. */
    const capacity: Unsigned
    /** isoparametric_ */
    const isoparametric: bool
    /** element_: None stands for the null pointer. */
    const element: Option<Elements.ElementKind>

    /** particles_: the ids of the particles located in the cell. */
    var particles: seq<Index>
    /** nglobal_particles_ */
    var nglobalParticles: Unsigned
    /** nodes_, in the order they were added. */
    var nodes: seq<NodeBase>
    /** neighbours_: ids of the neighbouring cells. */
    var neighbours: set<Index>
    /** rank_ and previous_mpirank_ */
    var rank: Unsigned
    var previousRank: Unsigned
    /** solving_status_, free_surface_ and volume_fraction_ */
    var solvingStatus: bool
    var freeSurface: bool
    var volumeFraction: real

    /** An assigned element has one function per node of the cell and the
        cell's dimension. */
    predicate ElementFits()
    {
      element.Some? ==>
        Elements.NFunctions(element.value) == capacity && Elements.Dim(element.value) == dim
    }

    /** The cell never holds more nodes than it was built for, never holds a
        particle id twice, and its element fits it. */
    ghost predicate Valid()
      reads this`nodes, this`particles
    {
      && |nodes| <= capacity
      && NoDuplicates(particles)
      && ElementFits()
    }

    /** Builds a cell with its global id, node count and element; an element
        whose function count differs from the node count is not assigned. */
    constructor (id: Index, dim: Dim, nnodes: Unsigned, elementKind: Elements.ElementKind,
                 isoparametric: bool)
      requires Elements.Dim(elementKind) == dim
      ensures Valid()
      ensures this.id == id && this.dim == dim && capacity == nnodes
      ensures this.isoparametric == isoparametric
      ensures element == if Elements.NFunctions(elementKind) == nnodes then Some(elementKind) else None
      ensures particles == [] && nodes == [] && neighbours == {}
      ensures nglobalParticles == 0 && rank == 0 && previousRank == 0
      ensures !solvingStatus && !freeSurface && volumeFraction == 0.0
    {
      this.id := id;
      this.dim := dim;
      capacity := nnodes;
      this.isoparametric := isoparametric;
      element := if Elements.NFunctions(elementKind) == nnodes then Some(elementKind) else None;
      particles := [];
      nglobalParticles := 0;
      nodes := [];
      neighbours := {};
      rank := 0;
      previousRank := 0;
      solvingStatus := false;
      freeSurface := false;
      volumeFraction := 0.0;
    }

    /** nparticles(): with no id held twice, the number of distinct particles
        in the cell. */
    function NParticles(): (n: nat)
      reads this`particles
      ensures NoDuplicates(particles) ==> n == |Members(particles)|
    {
      DistinctCount(particles);
      |particles|
    }

    /** status(): the cell is active exactly when some particle is in it. */
    function Status(): (active: bool)
      reads this`particles
      ensures active <==> exists pid :: pid in particles
      ensures active <==> NParticles() > 0
    {
      if |particles| == 0 then false else assert particles[0] in particles; true
    }

    /** nnodes(): at least the number of distinct global node ids. */
    function NNodes(): (n: nat)
      reads this`nodes
      ensures |NodeIds(nodes)| <= n
    {
      NodeIdsBound(nodes);
      |nodes|
    }

    /** nneighbours(): zero exactly when the cell has no neighbour. */
    function NNeighbours(): (n: nat)
      reads this`neighbours
      ensures n == 0 <==> neighbours == {}
    {
      |neighbours|
    }

    /** nfunctions(): zero exactly when no element is assigned, and otherwise
        the node count the cell was built for. */
    function NFunctions(): (n: nat)
      ensures n == 0 <==> element.None?
      ensures ElementFits() ==> n == 0 || n == capacity
    {
      if element.Some? then Elements.NFunctions(element.value) else 0
    }

    /** nodes_id(): the set of global ids of the cell's nodes, built one node
        at a time. */
    method NodesId() returns (ids: set<Index>)
      ensures ids == NodeIds(nodes)
      ensures forall i :: 0 <= i < |nodes| ==> nodes[i].id in ids
      ensures |ids| <= NNodes()
    {
      ids := {};
      for i := 0 to |nodes|
        invariant ids == NodeIds(nodes[..i])
      {
        assert NodeIds(nodes[..i + 1]) == NodeIds(nodes[..i]) + {nodes[i].id} by {
          assert nodes[..i + 1][i] == nodes[i];
          forall x | x in NodeIds(nodes[..i + 1]) ensures x in NodeIds(nodes[..i]) + {nodes[i].id} {
            var j :| 0 <= j <= i && nodes[..i + 1][j].id == x;
            if j < i {
              assert nodes[..i][j] == nodes[..i + 1][j];
            }
          }
          forall x | x in NodeIds(nodes[..i]) ensures x in NodeIds(nodes[..i + 1]) {
            var j :| 0 <= j < i && nodes[..i][j].id == x;
            assert nodes[..i + 1][j] == nodes[..i][j];
          }
        }
        ids := ids + {nodes[i].id};
      }
      assert nodes[..|nodes|] == nodes;
      NodeIdsBound(nodes);
    }

    /** add_node(): appends a node while the cell holds fewer nodes than it was
        built for; reports whether the node was added. */
    method AddNode(localId: Unsigned, node: NodeBase) returns (inserted: bool)
      requires Valid()
      modifies this`nodes
      ensures Valid()
      ensures inserted <==> old(|nodes|) < capacity
      ensures nodes == if inserted then old(nodes) + [node] else old(nodes)
      ensures NNodes() <= capacity
    {
      inserted := |nodes| < capacity;
      if inserted {
        nodes := nodes + [node];
      }
    }

    /** add_neighbour(): set insertion; reports whether the id was new. */
    method AddNeighbour(neighbourId: Index) returns (inserted: bool)
      modifies this`neighbours
      ensures inserted <==> neighbourId !in old(neighbours)
      ensures neighbours == old(neighbours) + {neighbourId}
      ensures NNeighbours() == old(NNeighbours()) + (if inserted then 1 else 0)
    {
      inserted := neighbourId !in neighbours;
      assert !inserted ==> neighbours + {neighbourId} == neighbours;
      neighbours := neighbours + {neighbourId};
    }

    /** add_particle_id(): appends an id the cell does not hold yet; reports
        whether it was added. */
    method AddParticleId(pid: Index) returns (inserted: bool)
      requires Valid()
      modifies this`particles
      ensures Valid()
      ensures inserted <==> pid !in old(particles)
      ensures particles == Inserted(old(particles), pid)
      ensures NParticles() == old(NParticles()) + (if inserted then 1 else 0)
      ensures pid in particles && Status()
    {
      inserted := pid !in particles;
      if inserted {
        particles := particles + [pid];
      }
    }

    /** remove_particle_id(): erases every occurrence of the id, keeping the
        order of the remaining ids. */
    method RemoveParticleId(pid: Index)
      requires Valid()
      modifies this`particles
      ensures Valid()
      ensures particles == Without(old(particles), pid)
      ensures pid !in particles
      ensures forall q :: q in old(particles) && q != pid ==> q in particles
    {
      var ps, kept := particles, [];
      for i := 0 to |ps|
        invariant kept == Without(ps[..i], pid)
      {
        assert ps[..i + 1] == ps[..i] + [ps[i]];
        WithoutAppend(ps[..i], [ps[i]], pid);
        if ps[i] != pid {
          kept := kept + [ps[i]];
        }
      }
      assert ps[..|ps|] == ps;
      particles := kept;
    }

    /** clear_particle_ids(): the cell becomes inactive; nodes and neighbours
        stay as they were. */
    method ClearParticleIds()
      requires Valid()
      modifies this`particles
      ensures Valid()
      ensures particles == [] && NParticles() == 0 && !Status()
      ensures nodes == old(nodes) && neighbours == old(neighbours)
    {
      particles := [];
    }

    /** nglobal_particles(n): the getter returns n afterwards. */
    method SetNGlobalParticles(n: Unsigned)
      modifies this`nglobalParticles
      ensures nglobalParticles == n
    {
      nglobalParticles := n;
    }

    /** rank(r): the previous rank becomes the one held so far. */
    method AssignRank(r: Unsigned)
      modifies this`rank, this`previousRank
      ensures rank == r && previousRank == old(rank)
    {
      previousRank := rank;
      rank := r;
    }

    /** assign_solving_status(s): the getter returns s afterwards. */
    method AssignSolvingStatus(s: bool)
      modifies this`solvingStatus
      ensures solvingStatus == s
    {
      solvingStatus := s;
    }

    /** assign_free_surface(b): the getter returns b afterwards. */
    method AssignFreeSurface(b: bool)
      modifies this`freeSurface
      ensures freeSurface == b
    {
      freeSurface := b;
    }

    /** assign_volume_fraction(f): the getter returns f afterwards. */
    method AssignVolumeFraction(f: real)
      modifies this`volumeFraction
      ensures volumeFraction == f
    {
      volumeFraction := f;
    }
  }

  /** A fresh cell is inactive, becomes active with its first particle and
      inactive again once that particle is removed. */
  method StatusLifecycle(id: Index, dim: Dim, nnodes: Unsigned, kind: Elements.ElementKind,
                         isoparametric: bool, pid: Index)
    returns (initially: bool, afterAdd: bool, afterRemove: bool)
    requires Elements.Dim(kind) == dim
    ensures !initially && afterAdd && !afterRemove
  {
    var cell := new Cell(id, dim, nnodes, kind, isoparametric);
    initially := cell.Status();
    var _ := cell.AddParticleId(pid);
    afterAdd := cell.Status();
    cell.RemoveParticleId(pid);
    afterRemove := cell.Status();
  }
}
