/** Option and Result, and the errors the library raises (as Python exceptions). */
module Wrappers {

  datatype Option<+T> = None | Some(value: T)

  /** The exceptions raised by the modelled functions. */
  datatype Error =
    | EdgeNotFound              // ValueError('Edge not found')
    | FacesNotFound             // ValueError("Faces not found")
    | SolidsNotFound            // ValueError("Solids not found")
    | FacePointNotFound         // ValueError('Face point not found'), from is_face_in_face
    | SolidPointNotFound        // ValueError('Solid point not found'), from is_compound_filter_solid_in_solid
    | NameNotInList(name: string) // ValueError from list.index
    | FaceIndexOutOfRange(index: int) // IndexError from Shape.Faces[face_number]

  datatype Result<+T> = Ok(value: T) | Err(error: Error) {
    predicate IsFailure() { Err? }

    function PropagateFailure<U>(): Result<U>
      requires Err?
    {
      Err(error)
    }

    function Extract(): T
      requires Ok?
    {
      value
    }
  }
}
