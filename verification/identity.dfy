/**
 Identity of the aggregates. UUID generation and the wall clock are outside
 the model: every ID and creation date is an opaque value the caller supplies.
 */
module Identity {
  import opened Dates

  datatype Uuid = Uuid(bits: nat)

  /** The fields every aggregate embeds: its ID and its creation date. */
  datatype Base = Base(id: Uuid, created: DateTime)
}
