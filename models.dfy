/** The snippet record of src/models.rs. */
module Models {

  /** A recorded snippet: a title and a description, identified only by its
      position in the list that holds it. The serde derives are not modelled. */
  datatype Snippet = Snippet(title: string, description: string)
}
