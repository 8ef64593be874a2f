/** The object-level permission of the room endpoints. */
module Permissions {
  import opened Common
  import opened ChatModels

  datatype HttpMethod = GET | HEAD | OPTIONS | POST | PUT | PATCH | DELETE

  /** The read-only methods. */
  predicate IsSafe(m: HttpMethod) {
    m == GET || m == HEAD || m == OPTIONS
  }

  /** `IsOwnerOrReadOnly.has_object_permission`: reads are always allowed;
      anything else only to the object's owner. It looks at nothing but the
      method, the owner and the requester. */
  function HasObjectPermission(m: HttpMethod, owner: Option<Id>, requester: Requester): (ok: bool)
    ensures IsSafe(m) ==> ok
    ensures !IsSafe(m) ==> (ok <==> requester.Authenticated? && owner == Some(requester.id))
  {
    if IsSafe(m) then true
    else match requester
      case Anonymous => false
      case Authenticated(u) => owner == Some(u)
  }

  /** An object without an owner can be read by anyone and changed by no one. */
  lemma OwnerlessIsReadOnly(m: HttpMethod, requester: Requester)
    ensures HasObjectPermission(m, None, requester) <==> IsSafe(m)
  {
  }
}
