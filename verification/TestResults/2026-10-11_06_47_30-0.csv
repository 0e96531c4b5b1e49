TestResult.DisplayName,TestResult.Outcome,TestResult.Duration,TestResult.ResourceCount,RandomSeed
Workflow.QuickStatusChange (correctness),Failed,00:00:01.6080929,2091447,4
Workflow.QuickStatusChange (well-formedness),Passed,00:00:00.2741888,109016,4
