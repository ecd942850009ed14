/** JSON values as the codec of api/serialization.py and the seal of engine/evidence/models.py see
    them: after `json.loads` and before `json.dumps`. */
module Json {

  /** The fixed field names, and free names for the open dictionaries. */
  datatype Key =
    | SCHEMA | SCHEMA_VERSION | PAYLOAD
    | MANIFEST_VERSION | RUN_ID | WORKLOAD_ID | SOURCE_IDENTITY | CANDIDATE_IDENTITY | ORACLE_IDENTITY
    | ENVIRONMENT_IDENTITIES | CONTROLLED_INPUT | EXECUTION_EVIDENCE | ARTIFACT_EVIDENCE | COMPARISON_EVIDENCE
    | VERDICT_EVIDENCE | CREATED_AT | SEALED_HASH
    | SOURCE_ID | SOURCE_HASH | FILE_COUNT | TOTAL_SIZE_BYTES | CANDIDATE_ID | CANDIDATE_HASH
    | ORACLE_ID | IMAGE_DIGEST | COMPILER_VERSION | PREPROCESSOR_VERSION | BASE_IMAGE
    | RUNTIME_ID | JAVA_VERSION | COBOL_COMPILER | OS_BASE | NETWORK_POLICY | RESOURCE_LIMITS
    | INPUT_ID | STDIN_HASH | INPUT_FILES
    | EXECUTION_ID | COMMAND | WORKING_DIRECTORY | ENVIRONMENT_VARIABLES | START_TIME | END_TIME | EXIT_CODE
    | STDOUT_HASH | STDERR_HASH | GENERATED_FILES | SOURCE_TREE_HASH_BEFORE | SOURCE_TREE_HASH_AFTER
    | TERMINATION_STATUS | TIMEOUT_APPLIED | TIMEOUT_DURATION | COMPILATION_DIAGNOSTICS | EXECUTION_PHASE
    | ARTIFACT | ARTIFACT_ID | ARTIFACT_TYPE | LOGICAL_NAME | PRODUCER_ROLE | CONTENT_HASH | SIZE_BYTES | RECORD_COUNT
    | CAPTURE_TIME
    | COMPARISON_ID | COMPARATOR_ID | COMPARATOR_VERSION | ORACLE_ARTIFACT_ID | CANDIDATE_ARTIFACT_ID | RESULT
    | NORMALIZATION_APPLIED | DIFFERENCES | FIELD_LEVEL_RESULTS | ORDERING_APPLIED | FAILURE_POLICY
    | VERDICT_STATE | EXECUTED_CHECK_COUNT | SKIPPED_COUNT | UNAVAILABLE_COUNT | SUPPORTED_SCOPE_STATEMENT
    | EVIDENCE_MANIFEST_HASH | DERIVATION_TIMESTAMP | STATE | ORACLE_DIGEST
    | Name(text: string)

  type Object = map<Key, Json>

  datatype Json = Null | Bool(b: bool) | Int(n: int) | Str(s: string) | Arr(items: seq<Json>) | Obj(fields: Object)
}
