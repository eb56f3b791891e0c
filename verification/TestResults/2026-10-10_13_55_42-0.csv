TestResult.DisplayName,TestResult.Outcome,TestResult.Duration,TestResult.ResourceCount,RandomSeed
ActivityCard.UnitOnlyLabels (correctness),Failed,00:00:00.6782741,2036909,1
ActivityCard.ActivityIcon (well-formedness),Passed,00:00:00.3049293,77690,1
ActivityCard.ActivityColor (well-formedness),Passed,00:00:00.2989828,76570,1
ActivityCard.HoursMinutesLabelIs (correctness),Passed,00:00:00.1497235,362920,1
ActivityCard.ReadOnlyLabels (correctness),Passed,00:00:00.1372640,87669,1
ActivityCard.ReadHoursMinutesLabel (correctness),Passed,00:00:00.0593784,90736,1
ActivityCard.FormatDurationRoundTrip (correctness),Passed,00:00:00.0589929,94236,1
ActivityCard.ReadHoursThenMinutes (correctness),Passed,00:00:00.0570570,86502,1
ActivityCard.HoursMinutesLabelIs (well-formedness),Passed,00:00:00.0521629,33931,1
ActivityCard.MinutesOnlyLabel (correctness),Passed,00:00:00.0507962,69268,1
ActivityCard.ReadAfterNumber (correctness),Passed,00:00:00.0453052,47235,1
ActivityCard.ReadDuration (well-formedness),Passed,00:00:00.0413994,33012,1
ActivityCard.FormatDuration (well-formedness),Passed,00:00:00.0370964,37766,1
ActivityCard.MinutesLabelIs (correctness),Passed,00:00:00.0358990,25783,1
ActivityCard.ReadMinutesOf (correctness),Passed,00:00:00.0358526,43121,1
ActivityCard.ReadAfterNumber (well-formedness),Passed,00:00:00.0345389,33645,1
ActivityCard.LabelOfHoursMinutes (correctness),Passed,00:00:00.0342661,74522,1
ActivityCard.ReadUnit (well-formedness),Passed,00:00:00.0332511,30530,1
ActivityCard.ReadMinutes (well-formedness),Passed,00:00:00.0258529,28556,1
ActivityCard.HoursAndMinutes (well-formedness),Passed,00:00:00.0139754,4597,1
ActivityCard.HoursAndMinutes (correctness),Passed,00:00:00.0132739,14590,1
