/** The configuration constants of the backend (src/config/constants.js). */
module Config {
  const MaxSearchTerms := 5
  const MaxPapersPerTerm := 10
  const MaxTotalPapers := 20
  const MaxChatPapers := 10
  const SearchDelayMs := 100
  const MaxConcurrentSearches := 3
  const CacheTtlSeconds := 3600
  const CacheMaxEntries := 1000
  const ArxivMaxResults := 10
  const DefaultCitations := 0
  const RelevanceThreshold: real := 0.1
  const MaxRetries := 3
  const RetryDelayMs := 1000

  const StatusOk := 200
  const StatusMethodNotAllowed := 405
  const StatusInternalServerError := 500
  const StatusBadRequest := 400
  const StatusNotFound := 404

  const MethodNotAllowedMessage := "Method not allowed"
  const InvalidJsonMessage := "Invalid JSON in request body"
  const MissingQueryMessage := "Query parameter is required"
  const AiErrorMessage := "AI service temporarily unavailable"
  const SearchErrorMessage := "Search service temporarily unavailable"
  const InternalErrorMessage := "Internal server error"
}
