/** The public field catalogue, and that it meets what the query theorems ask of one. */
module ResultFields {
  import opened Text
  import opened FilterSyntax
  import opened ResultQuery

  const IDENTITY_FIELDS: seq<Field> := [
    Field("id", UuidKind, "id", false),
    Field("decoder_name", StringKind, "decoder_version__name", false),
    Field("decoder_slug", StringKind, "decoder_version__slug", false),
    Field("decoder_version", StringKind, "decoder_version__version", false),
    Field("skeleton_preparation", StringKind, "decoder_version__circuit_skeleton_preparation", false),
    Field("prior_preparation", StringKind, "decoder_version__circuit_priors_preparation", false),
    Field("provides_failure_probability", BooleanKind, "decoder_version__provides_failure_probability", false),
    Field("circuit_name", StringKind, "circuit_revision__name", false),
    Field("circuit_slug", StringKind, "circuit_revision__slug", false),
    Field("noise_model", StringKind, "circuit_revision__noise_model__name", false),
    Field("noise_model_slug", StringKind, "circuit_revision__noise_model__slug", false),
    Field("evaluator_version", StringKind, "evaluator_version__version", false),
    Field("machine_slug", StringKind, "machine__slug", true),
    Field("machine_class", StringKind, "machine__machine_class", true)
  ]

  const COUNT_FIELDS: seq<Field> := [
    Field("shots_total", IntegerKind, "shots_total", false),
    Field("successful_shots", IntegerKind, "successful_shots", false),
    Field("logical_failure_shots", IntegerKind, "logical_failure_shots", false),
    Field("timeout_shots", IntegerKind, "timeout_shots", false),
    Field("decoder_error_shots", IntegerKind, "decoder_error_shots", false),
    Field("failure_probability_shots", IntegerKind, "failure_probability_shots", false),
    Field("latency_shots", IntegerKind, "latency_shots", false)
  ]

  const METRIC_FIELDS: seq<Field> := [
    Field("preparation_duration_seconds", DecimalKind, "preparation_duration_seconds", true),
    Field("t_1000_ns", IntegerKind, "t_1000_ns", true),
    Field("score_brier_loss_upper_95_v0_1", DecimalKind, "metric_brier_loss_upper_95_v0_1", true),
    Field("score_ler_upper_95_at_5pct_acceptance_v0_1", DecimalKind,
          "metric_ler_upper_95_at_5pct_acceptance_v0_1", true),
    Field("reproduction_status", StringKind, "reproduction_status", false),
    Field("published_at", DatetimeKind, "published_at", false)
  ]

  /** `RESULT_FIELDS`. Every field is sortable, filterable and selectable. */
  const RESULT_FIELDS: seq<Field> := IDENTITY_FIELDS + COUNT_FIELDS + METRIC_FIELDS

  ghost predicate GoodName(name: string) {
    IsIdentifier(name) && Unreserved(name)
  }

  /** Lower-case letters, digits and underscores, starting with a letter. */
  predicate Plain(name: string) {
    && (forall i | 0 <= i < |name| :: 'a' <= name[i] <= 'z' || name[i] == '_' || '0' <= name[i] <= '9')
    && name != "" && 'a' <= name[0] <= 'z' && (|name| > 3 || name[0] == 'i')
  }

  lemma PlainIsGood(name: string)
    requires Plain(name)
    ensures GoodName(name)
  {
    LowerFixed(name);
  }

  lemma IdentityNames0()
    ensures Plain("id")
    ensures Plain("decoder_name")
    ensures Plain("decoder_slug")
  {
  }

  lemma IdentityNames1()
    ensures Plain("decoder_version")
    ensures Plain("skeleton_preparation")
    ensures Plain("prior_preparation")
  {
  }

  lemma IdentityNames2()
    ensures Plain("provides_failure_probability")
    ensures Plain("circuit_name")
    ensures Plain("circuit_slug")
  {
  }

  lemma IdentityNames3()
    ensures Plain("noise_model")
    ensures Plain("noise_model_slug")
    ensures Plain("evaluator_version")
  {
  }

  lemma IdentityNames4()
    ensures Plain("machine_slug")
    ensures Plain("machine_class")
  {
  }

  lemma IdentityNames()
    ensures forall i | 0 <= i < |IDENTITY_FIELDS| :: Plain(IDENTITY_FIELDS[i].name)
  {
    IdentityNames0();
    IdentityNames1();
    IdentityNames2();
    IdentityNames3();
    IdentityNames4();
  }

  lemma CountNames0()
    ensures Plain("shots_total")
    ensures Plain("successful_shots")
    ensures Plain("logical_failure_shots")
  {
  }

  lemma CountNames1()
    ensures Plain("timeout_shots")
    ensures Plain("decoder_error_shots")
    ensures Plain("failure_probability_shots")
  {
  }

  lemma CountNames2()
    ensures Plain("latency_shots")
  {
  }

  lemma CountNames()
    ensures forall i | 0 <= i < |COUNT_FIELDS| :: Plain(COUNT_FIELDS[i].name)
  {
    CountNames0();
    CountNames1();
    CountNames2();
  }

  lemma MetricNames0()
    ensures Plain("preparation_duration_seconds")
    ensures Plain("t_1000_ns")
    ensures Plain("score_brier_loss_upper_95_v0_1")
  {
  }

  lemma MetricNames1()
    ensures Plain("score_ler_upper_95_at_5pct_acceptance_v0_1")
    ensures Plain("reproduction_status")
    ensures Plain("published_at")
  {
  }

  lemma MetricNames()
    ensures forall i | 0 <= i < |METRIC_FIELDS| :: Plain(METRIC_FIELDS[i].name)
  {
    MetricNames0();
    MetricNames1();
  }

  lemma {:induction false} LookupFinds(fields: seq<Field>, field: Field)
    requires field in fields
    ensures Lookup(fields, field.name).Some?
  {
    if fields[0] != field {
      LookupFinds(fields[1..], field);
    }
  }

  /** The real catalogue, with any round-tripping UUID and datetime parsers, is a valid
      context: the theorems about filters and queries apply to it. */
  lemma CatalogueIsValid(parseUuid: string -> Option<string>, parseDatetime: string -> Option<string>)
    requires RoundTrips(parseUuid) && RoundTrips(parseDatetime)
    ensures ValidCatalogue(Context(RESULT_FIELDS, parseUuid, parseDatetime))
  {
    IdentityNames();
    CountNames();
    MetricNames();
    forall f | f in RESULT_FIELDS ensures GoodName(f.name) {
      PlainIsGood(f.name);
    }
    assert METRIC_FIELDS[5].name == "published_at";
    LookupFinds(RESULT_FIELDS, METRIC_FIELDS[5]);
  }
}
