/**
 * src/CubeMap.h: six pixel buffers keyed by face. The faces live in an
 * enum-ordered std::map of shared pointers; a pointer is modelled as a
 * nullable PixelArray reference, and the map as a Dafny map field.
 */
module CubeMaps {
  import opened Ints
  import opened PixelArrays

  /** CubeMapFaceEnum, in declaration order. */
  datatype CubeMapFace = PositiveX | NegativeX | PositiveY | NegativeY | PositiveZ | NegativeZ

  /** The enumerator's value, which orders the keys of the face map. */
  function Ordinal(face: CubeMapFace): (n: nat)
    ensures n < 6
  {
    match face
    case PositiveX => 0
    case NegativeX => 1
    case PositiveY => 2
    case NegativeY => 3
    case PositiveZ => 4
    case NegativeZ => 5
  }

  /** Distinct enumerators have distinct values, so the map's key order is total. */
  lemma OrdinalInjective(f: CubeMapFace, g: CubeMapFace)
    ensures Ordinal(f) == Ordinal(g) <==> f == g
  {
  }

  /** faces.begin(): the key of a non-empty map that comes first in enum order. */
  function FirstFace(keys: set<CubeMapFace>): (f: CubeMapFace)
    requires keys != {}
    ensures f in keys
    ensures forall g :: g in keys ==> Ordinal(f) <= Ordinal(g)
  {
    if PositiveX in keys then PositiveX
    else if NegativeX in keys then NegativeX
    else if PositiveY in keys then PositiveY
    else if NegativeY in keys then NegativeY
    else if PositiveZ in keys then PositiveZ
    else
      var g :| g in keys;
      assert g == NegativeZ;
      NegativeZ
  }

  class CubeMap<T> {
    var faces: map<CubeMapFace, PixelArray?<T>>

    /** After construction every one of the six faces has an entry. */
    ghost predicate Valid()
      reads this
    {
      forall f: CubeMapFace :: f in faces
    }

    /** The constructor stores the six arguments under their faces. */
    constructor (px: PixelArray?<T>, nx: PixelArray?<T>, py: PixelArray?<T>,
                 ny: PixelArray?<T>, pz: PixelArray?<T>, nz: PixelArray?<T>)
      ensures Valid()
      ensures faces[PositiveX] == px && faces[NegativeX] == nx
      ensures faces[PositiveY] == py && faces[NegativeY] == ny
      ensures faces[PositiveZ] == pz && faces[NegativeZ] == nz
    {
      var m: map<CubeMapFace, PixelArray?<T>> := map[];
      m := m[PositiveX := px];
      m := m[NegativeX := nx];
      m := m[PositiveY := py];
      m := m[NegativeY := ny];
      m := m[PositiveZ := pz];
      m := m[NegativeZ := nz];
      forall f: CubeMapFace
        ensures f in m
      {
        match f
        case PositiveX =>
        case NegativeX =>
        case PositiveY =>
        case NegativeY =>
        case PositiveZ =>
        case NegativeZ =>
      }
      faces := m;
    }

    /**
     * operator[]: std::map's subscript, which inserts an empty pointer for a
     * missing key; once Valid holds no key is missing and nothing changes.
     */
    method Get(face: CubeMapFace) returns (r: PixelArray?<T>)
      modifies this
      ensures face in old(faces) ==> faces == old(faces)
      ensures face !in old(faces) ==> faces == old(faces)[face := null]
      ensures r == faces[face]
    {
      if face !in faces {
        faces := faces[face := null];
      }
      r := faces[face];
    }

    /** getWidth: the width of the face that comes first in the map, PositiveX once Valid holds. */
    function Width(): (w: uint16)
      reads this
      requires faces.Keys != {} && faces[FirstFace(faces.Keys)] != null
      ensures Valid() ==> w == faces[PositiveX].width
    {
      faces[FirstFace(faces.Keys)].width
    }

    /** getHeight: the height of the face that comes first in the map, PositiveX once Valid holds. */
    function Height(): (h: uint16)
      reads this
      requires faces.Keys != {} && faces[FirstFace(faces.Keys)] != null
      ensures Valid() ==> h == faces[PositiveX].height
    {
      faces[FirstFace(faces.Keys)].height
    }
  }
}
