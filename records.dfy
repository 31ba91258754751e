/** The two documents the application stores per movie, in the shape the view-model uses. */
module Records {

  /** A price seen in a film: the year of the scene, the amount and the in-film timestamp, all as typed. */
  datatype MoneyRecord = MoneyRecord(year: string, amount: string, timestamp: string)

  /** An image annotation: the upload time it is filed under (`name`) and its text. */
  datatype AnnotatedImage = AnnotatedImage(name: string, annotation: string)
}
