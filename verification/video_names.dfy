/** What the job table and the version table name their rows by. */
module VideoNames {
  type Id = string
  type Digest = string
}
