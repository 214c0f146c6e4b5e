/** QVariantMap: a row as values under column names. */
module Rows {
  import opened Wrappers

  type Row<V> = map<string, V>

  /** QVariantMap::value: an absent key reads as an invalid variant. */
  function ValueOf<V>(row: Row<V>, key: string): Option<V> {
    if key in row then Some(row[key]) else None
  }
}
