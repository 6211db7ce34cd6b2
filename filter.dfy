/** The list-filter configuration: the URL segment that introduces a filter. */
module Filter {
  import opened Js
  import opened Theme

  /** The segment used when none is configured. */
  const DefaultColumn := "filters"

  /** `getFilterConfig()`: the `filter` entry of the stored configuration, as stored. */
  function GetFilterConfig(stored: FullThemeConfig): Option<FilterConfig> {
    stored.filter
  }

  /** `getFilterColumn()`: the configured column, or `filters` when it is missing or empty (`||`). */
  function GetFilterColumn(stored: FullThemeConfig): (r: string)
    ensures r != ""
  {
    var config := GetFilterConfig(stored);
    if config.Some? && config.value.column.Some? && config.value.column.value != "" then config.value.column.value
    else DefaultColumn
  }

  /** The column is the configured one exactly when that is a non-empty string; an empty string falls back like a missing one. */
  lemma GetFilterColumnCases(stored: FullThemeConfig)
    ensures stored.filter.Some? && stored.filter.value.column.Some? && stored.filter.value.column.value != ""
            ==> GetFilterColumn(stored) == stored.filter.value.column.value
    ensures stored.filter.None? ==> GetFilterColumn(stored) == "filters"
    ensures stored.filter.Some? && stored.filter.value.column.None? ==> GetFilterColumn(stored) == "filters"
    ensures stored.filter == Some(FilterConfig(Some(""))) ==> GetFilterColumn(stored) == "filters"
  {
  }
}
