/** The names of the connection attributes that only the wrapper itself sets. */
module ConnectionKeys {

  const RDS_TEST_CONN := "RDS_TEST_CONN"
  const MONITORING_CONN_UUID := "0CB02009-FF43-4B13-BE63-6C68DA8B0063"
  const SRW_SKIP := "fe42ba35-34a6-4617-8beb-cc41e6999d43"
}
