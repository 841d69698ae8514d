/**
  Renderable.hpp and HitInfo.hpp: the shader reference, the hit record and
  the part every intersectable object shares, its shader and its constant
  visibility mask.
 */
module Renderables {

  import opened Masks
  import opened Geometry

  /** A `const Shader*`: either null or the address of some shader. */
  datatype ShaderRef = NullShader | ShaderAt(address: nat)

  /** The hit record an `intersect` call fills in for its caller. */
  datatype HitInfo = HitInfo(
    hitT: real,
    normal: Vec3,
    location: Vec3,
    inDirection: Vec3,
    shader: ShaderRef,
    texCoords: Vec2)

  /**
    The fields a Renderable holds. Both are `const` in the source, so an
    immutable datatype models them: nothing can change them after construction.
   */
  datatype Renderable = Renderable(shaderPtr: ShaderRef, mask: IntersectMask) {

    /** True when the object takes part in a query with mask `query`. */
    predicate CheckMask(query: IntersectMask) {
      mask & query != 0
    }

    function Shader(): ShaderRef {
      shaderPtr
    }
  }

  /** The constructor `Renderable(shader, mask = DEFAULT_BITMASK)`. */
  function NewRenderable(shader: ShaderRef, mask: IntersectMask := DefaultMask): Renderable {
    Renderable(shader, mask)
  }

  /** `shader()` gives back exactly the constructor's pointer, null included, and the mask is the one given. */
  lemma ConstructorKeepsFields(shader: ShaderRef, mask: IntersectMask)
    ensures NewRenderable(shader, mask).Shader() == shader
    ensures NewRenderable(shader, mask).mask == mask
    ensures forall q :: NewRenderable(shader, mask).CheckMask(q) <==> mask & q != 0
  {
  }

  /** An object built without a mask passes both visible and shadow queries. */
  lemma DefaultMaskPassesBoth(shader: ShaderRef)
    ensures NewRenderable(shader).CheckMask(VisibleMask)
    ensures NewRenderable(shader).CheckMask(ShadowMask)
  {
  }

  /** An empty query mask matches no object, whatever its mask. */
  lemma EmptyQueryMatchesNothing(r: Renderable)
    ensures !r.CheckMask(0)
  {
  }

  /**
    An object tagged only visible (as the back plane of the demo scene)
    is seen by visible queries and never by shadow queries.
   */
  lemma VisibleOnlyCastsNoShadow(r: Renderable)
    requires r.mask == VisibleMask
    ensures r.CheckMask(VisibleMask) && !r.CheckMask(ShadowMask)
  {
  }
}
