/** Human-readable names of the open-meteo daily parameters. */
module ParameterNames {

  /** The label used for every parameter id the table does not know. */
  const DefaultLabel: string := "Wind Speed"

  /** The closed table of known parameter ids. */
  const Labels: map<string, string> := map[
    "temperature_2m_max" := "High Temperature",
    "temperature_2m_min" := "Low Temperature",
    "apparent_temperature_max" := "Max Heat Index",
    "apparent_temperature_min" := "Min Heat Index",
    "precipitation_sum" := "Precipitation",
    "rain_sum" := "Rainfall",
    "snowfall_sum" := "Snowfall"
  ]

  /** The label of an open-meteo parameter id, with the wind-speed label as the default.
      No known id shares the default label, so the default is returned exactly for the
      unknown ids. */
  function ParameterName(parameter: string): (name: string)
    ensures name == DefaultLabel <==> parameter !in Labels
    ensures name == DefaultLabel || name in Labels.Values
  {
    if parameter in Labels then Labels[parameter] else DefaultLabel
  }

  /** Distinct known ids have distinct labels, so the label identifies the parameter. */
  lemma ParameterNameInjective(p: string, q: string)
    requires ParameterName(p) == ParameterName(q)
    ensures p == q || (p !in Labels && q !in Labels)
  {
  }

  /** Each known id and its label, and an unknown id that falls back to the default. */
  lemma ParameterNameTable()
    ensures ParameterName("temperature_2m_max") == "High Temperature"
    ensures ParameterName("temperature_2m_min") == "Low Temperature"
    ensures ParameterName("apparent_temperature_max") == "Max Heat Index"
    ensures ParameterName("apparent_temperature_min") == "Min Heat Index"
    ensures ParameterName("precipitation_sum") == "Precipitation"
    ensures ParameterName("rain_sum") == "Rainfall"
    ensures ParameterName("snowfall_sum") == "Snowfall"
    ensures ParameterName("windspeed_10m_max") == "Wind Speed"
  {
  }
}
